/** The layered graph: what insertion, pruning and deletion do to it, and what every run keeps. */
module HnswGraph {
  import opened Seqs
  import opened Heap
  import opened LayerSearch

  datatype Config = Config(dimensions: nat, m: nat, efConstruction: nat, efSearch: nat, metric: Metric)

  datatype Graph = Graph(nodes: Nodes, entryPoint: nat, hasEntry: bool, maxLevel: int)

  const EMPTY := Graph(map[], 0, false, 0)

  // ---------- operations on values ----------

  function SetLinks(nodes: Nodes, id: nat, level: nat, links: seq<nat>): (r: Nodes)
    requires id in nodes && level < |nodes[id].neighbors|
  {
    nodes[id := nodes[id].(neighbors := nodes[id].neighbors[level := links])]
  }

  /** The live entries of a list, in list order. */
  function LiveOnly(nodes: Nodes, links: seq<nat>): (r: seq<nat>)
    ensures |r| <= |links|
    ensures forall v :: v in r <==> v in links && v in nodes
  {
    if links == [] then []
    else
      var r := LiveOnly(nodes, links[..|links| - 1]);
      var v := links[|links| - 1];
      if v in nodes then r + [v] else r
  }

  function Take(s: seq<nat>, m: nat): seq<nat> {
    if |s| <= m then s else s[..m]
  }

  /** pruneConnections: the first `m` live entries, whatever their distance. */
  function Prune(nodes: Nodes, links: seq<nat>, m: nat): seq<nat> {
    Take(LiveOnly(nodes, links), m)
  }

  function Appended(nodes: Nodes, links: seq<nat>, w: nat, m: nat): seq<nat> {
    if w in links then links
    else if |links| + 1 > 2 * m then Prune(nodes, links + [w], m)
    else links + [w]
  }

  /** addConnection from `s` to `w`. */
  function Connect(nodes: Nodes, s: nat, w: nat, level: nat, m: nat): Nodes {
    if s !in nodes || level >= |nodes[s].neighbors| then nodes
    else SetLinks(nodes, s, level, Appended(nodes, nodes[s].neighbors[level], w, m))
  }

  function ConnectAll(nodes: Nodes, sel: seq<nat>, w: nat, level: nat, m: nat): Nodes {
    if sel == [] then nodes
    else Connect(ConnectAll(nodes, sel[..|sel| - 1], w, level, m), sel[|sel| - 1], w, level, m)
  }

  /** An insertion under way: the graph without the new node, its lists so far, and the
      entry point for the next level. */
  datatype Draft = Draft(nodes: Nodes, neighbors: seq<seq<nat>>, ep: nat)

  function AtLeastOne(n: int): nat {
    if n < 1 then 1 else n
  }

  function Min(a: int, b: int): int {
    if a < b then a else b
  }

  function NoLinks(level: nat): (r: seq<seq<nat>>)
    ensures |r| == level + 1
  {
    seq(level + 1, _ => [])
  }

  /** Greedy descent with one result per level, from level `top` down to above `level`. */
  ghost predicate Descended(cfg: Config, nodes: Nodes, vector: Vector, ep: nat, top: int, level: nat, ep': nat)
    decreases top - level
  {
    if top <= level then ep' == ep
    else exists ep1: nat, r: seq<Candidate> ::
        && Descended(cfg, nodes, vector, ep, top, level + 1, ep1)
        && DescendStep(cfg, nodes, vector, level, ep1, r, ep')
  }

  ghost predicate DescendStep(cfg: Config, nodes: Nodes, vector: Vector, level: nat, ep: nat, r: seq<Candidate>,
                              ep': nat) {
    LayerResult(Layer(nodes, cfg.metric, vector, level + 1), ep, 1, r) && ep' == r[0].id
  }

  ghost predicate LevelStep(cfg: Config, w: nat, vector: Vector, d: Draft, r: seq<Candidate>, level: nat, d': Draft) {
    && level < |d.neighbors|
    && LayerResult(Layer(d.nodes, cfg.metric, vector, level), d.ep, AtLeastOne(cfg.efConstruction), r)
    && var sel := Take(Ids(r), cfg.m);
      d' == Draft(ConnectAll(d.nodes, sel, w, level, cfg.m), d.neighbors[level := sel], r[0].id)
  }

  /** Levels `top` down to `level` have been linked. */
  ghost predicate Inserted(cfg: Config, w: nat, vector: Vector, d0: Draft, top: int, level: nat, d: Draft)
    decreases top + 1 - level
  {
    if level > top then d == d0
    else exists d1: Draft, r: seq<Candidate> ::
        && Inserted(cfg, w, vector, d0, top, level + 1, d1)
        && LevelStep(cfg, w, vector, d1, r, level, d)
  }

  /** addUnlocked with the random level `level`; a rejected vector changes nothing. */
  ghost predicate AddStep(cfg: Config, g: Graph, w: nat, vector: Vector, level: nat, g': Graph) {
    if |vector| != cfg.dimensions || w in g.nodes then g' == g
    else if !g.hasEntry then
      g' == Graph(g.nodes[w := Node(vector, level, NoLinks(level))], w, true, level)
    else
      exists ep, d :: LinkedInto(cfg, g, w, vector, level, ep, d) && g' == Completed(g, w, vector, level, d)
  }

  ghost predicate LinkedInto(cfg: Config, g: Graph, w: nat, vector: Vector, level: nat, ep: nat, d: Draft) {
    && Descended(cfg, g.nodes, vector, g.entryPoint, g.maxLevel, level, ep)
    && Inserted(cfg, w, vector, Draft(g.nodes, NoLinks(level), ep), Min(level, g.maxLevel), 0, d)
  }

  function Completed(g: Graph, w: nat, vector: Vector, level: nat, d: Draft): Graph {
    Graph(d.nodes[w := Node(vector, level, d.neighbors)],
          if level > g.maxLevel then w else g.entryPoint, true,
          if level > g.maxLevel then level else g.maxLevel)
  }

  function Without(links: seq<nat>, x: nat): (r: seq<nat>)
    ensures |r| <= |links|
    ensures forall v :: v in r <==> v in links && v != x
  {
    if links == [] then []
    else
      var r := Without(links[..|links| - 1], x);
      var v := links[|links| - 1];
      if v != x then r + [v] else r
  }

  /** The lists of `u` after `x` has told the nodes it lists to forget it. */
  function UnlinkedLists(nodes: Nodes, x: nat, u: nat): (r: seq<seq<nat>>)
    requires x in nodes && u in nodes
    ensures |r| == |nodes[u].neighbors|
  {
    var n := nodes[u].neighbors;
    var out := nodes[x].neighbors;
    seq(|n|, l requires 0 <= l < |n| => if l < |out| && u in out[l] then Without(n[l], x) else n[l])
  }

  function Unlinked(nodes: Nodes, x: nat): (r: Nodes)
    requires x in nodes
    ensures r.Keys == nodes.Keys - {x}
  {
    map u | u in nodes && u != x :: nodes[u].(neighbors := UnlinkedLists(nodes, x, u))
  }

  /** The entry point is a live node of the greatest level, if there is any node. */
  ghost predicate EntryInv(g: Graph) {
    && (g.hasEntry <==> g.nodes != map[])
    && (g.hasEntry ==>
          && g.entryPoint in g.nodes
          && g.nodes[g.entryPoint].level == g.maxLevel
          && forall u :: u in g.nodes ==> g.nodes[u].level <= g.maxLevel)
  }

  /** Delete; any node of the greatest level may become the new entry point. */
  ghost predicate DeleteStep(g: Graph, x: nat, g': Graph) {
    if x !in g.nodes then g' == g
    else
      && g'.nodes == Unlinked(g.nodes, x)
      && if g.entryPoint == x then EntryInv(g') && (g'.hasEntry || (g'.entryPoint == x && g'.maxLevel == 0))
         else g' == g.(nodes := g'.nodes)
  }

  // ---------- the list invariant ----------

  /** Smaller ids first, then larger ids in increasing order. */
  ghost predicate OlderFirst(u: nat, links: seq<nat>) {
    forall i, j :: 0 <= i < j < |links| && links[i] > u ==> links[i] < links[j]
  }

  predicate LinksBack(nodes: Nodes, v: nat, u: nat, level: nat) {
    v in nodes && level < |nodes[v].neighbors| && u in nodes[v].neighbors[level]
  }

  /** The shape of one list: bounded, distinct, no self-link, at most `m` smaller ids, all
      before the larger ones. */
  ghost predicate ListShape(u: nat, links: seq<nat>, m: nat) {
    && |links| <= 2 * m
    && NoDup(links)
    && u !in links
    && OlderFirst(u, links)
    && (|links| > m ==> links[m] > u)
  }

  /** Larger ids are live and link back; live entries have the level. */
  ghost predicate ListLinks(nodes: Nodes, u: nat, level: nat, links: seq<nat>) {
    && (forall v :: v in links && v > u ==> LinksBack(nodes, v, u, level))
    && (forall v :: v in links && v in nodes ==> level <= nodes[v].level)
  }

  ghost predicate ListOk(nodes: Nodes, u: nat, level: nat, m: nat)
    requires u in nodes && level < |nodes[u].neighbors|
  {
    && ListShape(u, nodes[u].neighbors[level], m)
    && ListLinks(nodes, u, level, nodes[u].neighbors[level])
  }

  ghost predicate ListsInv(nodes: Nodes, m: nat) {
    && (forall u :: u in nodes ==> |nodes[u].neighbors| == nodes[u].level + 1)
    && (forall u, l :: u in nodes && 0 <= l < |nodes[u].neighbors| ==> ListOk(nodes, u, l, m))
  }

  ghost predicate GraphInv(cfg: Config, g: Graph) {
    EntryInv(g) && ListsInv(g.nodes, cfg.m)
  }

  ghost predicate AllBelow(nodes: Nodes, w: nat) {
    forall u :: u in nodes ==> u < w
  }

  // ---------- pruning ----------

  /** Pruning keeps the order, so it keeps the shape of a list. */
  lemma {:induction false} LiveOnlyOrder(nodes: Nodes, links: seq<nat>, u: nat)
    requires NoDup(links) && OlderFirst(u, links)
    ensures NoDup(LiveOnly(nodes, links)) && OlderFirst(u, LiveOnly(nodes, links))
  {
    if links != [] {
      var prefix, v := links[..|links| - 1], links[|links| - 1];
      LiveOnlyOrder(nodes, prefix, u);
      var r := LiveOnly(nodes, prefix);
      forall i | 0 <= i < |r| ensures r[i] != v && (r[i] > u ==> r[i] < v) {
        assert r[i] in prefix;
        var k :| 0 <= k < |prefix| && prefix[k] == r[i];
        assert links[k] == r[i];
      }
    }
  }

  /** Filtering only moves entries forward: what stood among the first `k` is among the
      first `k` live entries. */
  lemma {:induction false} LiveOnlyPosition(nodes: Nodes, links: seq<nat>, k: nat)
    requires k < |links| && links[k] in nodes
    ensures exists i :: 0 <= i <= k && i < |LiveOnly(nodes, links)| && LiveOnly(nodes, links)[i] == links[k]
  {
    if k < |links| - 1 {
      LiveOnlyPosition(nodes, links[..|links| - 1], k);
      var i :| 0 <= i <= k && i < |LiveOnly(nodes, links[..|links| - 1])|
          && LiveOnly(nodes, links[..|links| - 1])[i] == links[k];
      assert LiveOnly(nodes, links)[i] == links[k];
    } else {
      var r := LiveOnly(nodes, links);
      assert r[|r| - 1] == links[k];
    }
  }

  lemma OlderPosition(u: nat, links: seq<nat>, m: nat, k: nat)
    requires ListShape(u, links, m) && k < |links| && links[k] < u
    ensures k < m
  {
  }

  /** Pruning never drops a live smaller id: there are at most `m` and they come first. */
  lemma PruneKeepsOlder(nodes: Nodes, u: nat, links: seq<nat>, w: nat, m: nat, v: nat)
    requires ListShape(u, links, m) && v in links && v < u && v in nodes
    ensures v in Prune(nodes, links + [w], m)
  {
    hide LiveOnly, ListShape;
    var k :| 0 <= k < |links| && links[k] == v;
    OlderPosition(u, links, m, k);
    var all := links + [w];
    assert all[k] == v;
    LiveOnlyPosition(nodes, all, k);
    var r := LiveOnly(nodes, all);
    var i :| 0 <= i <= k && i < |r| && r[i] == v;
    assert Take(r, m)[i] == v;
  }

  lemma ExtendedOrder(u: nat, links: seq<nat>, w: nat)
    requires NoDup(links) && OlderFirst(u, links) && u < w && w !in links
    requires forall v :: v in links && v > u ==> v < w
    ensures NoDup(links + [w]) && OlderFirst(u, links + [w])
  {
    assert forall i :: 0 <= i < |links| ==> links[i] in links;
  }

  lemma PrunedShape(nodes: Nodes, u: nat, links: seq<nat>, m: nat)
    requires NoDup(links) && OlderFirst(u, links) && u !in links
    ensures ListShape(u, Prune(nodes, links, m), m)
    ensures forall v :: v in Prune(nodes, links, m) ==> v in links && v in nodes
  {
    LiveOnlyOrder(nodes, links, u);
    var r := LiveOnly(nodes, links);
    assert u !in r;
    assert forall v :: v in Take(r, m) ==> v in r;
  }

  /** The list of an older node after the new id `w` has been offered to it. */
  lemma AppendedShape(nodes: Nodes, u: nat, links: seq<nat>, w: nat, m: nat)
    requires ListShape(u, links, m) && u < w && w !in links && w !in nodes
    requires forall v :: v in links && v > u ==> v < w
    ensures ListShape(u, Appended(nodes, links, w, m), m)
    ensures forall v :: v in Appended(nodes, links, w, m) ==> v in links || v == w
    ensures forall v :: v in links && v < u && v in nodes ==> v in Appended(nodes, links, w, m)
    ensures w in Appended(nodes, links, w, m) <==> |links| < 2 * m
  {
    ExtendedOrder(u, links, w);
    if |links| + 1 > 2 * m {
      PrunedShape(nodes, u, links + [w], m);
      forall v | v in links && v < u && v in nodes ensures v in Prune(nodes, links + [w], m) {
        PruneKeepsOlder(nodes, u, links, w, m, v);
      }
      hide *;
    } else {
      hide NoDup, OlderFirst, Prune;
    }
  }

  // ---------- one link of an insertion ----------

  function ListAfter(f: Nodes, s: nat, w: nat, l: nat, older: seq<nat>, newer: seq<nat>, u: nat, k: nat): seq<nat>
    requires u in f && k < |f[u].neighbors|
  {
    if k == l && u == s then older else if k == l && u == w then newer else f[u].neighbors[k]
  }

  /** `f'` differs from `f` only in the lists of `s` and of `w` at level `l`. */
  ghost predicate Relinked(f: Nodes, s: nat, w: nat, l: nat, older: seq<nat>, newer: seq<nat>, f': Nodes) {
    && f'.Keys == f.Keys
    && (forall u :: u in f ==> f'[u].level == f[u].level && f'[u].vector == f[u].vector
                               && |f'[u].neighbors| == |f[u].neighbors|)
    && (forall u, k :: u in f && 0 <= k < |f[u].neighbors| ==>
          f'[u].neighbors[k] == ListAfter(f, s, w, l, older, newer, u, k))
  }

  /** `w` lists `s`, and `s` is offered `w`: the full list invariant survives, with `w` counted
      as live although pruning does not see it yet. */
  lemma RelinkKeeps(f: Nodes, s: nat, w: nat, l: nat, older: seq<nat>, newer: seq<nat>, f': Nodes, m: nat)
    requires ListsInv(f, m) && s in f && w in f && s < w && l <= f[s].level && l <= f[w].level
    requires Relinked(f, s, w, l, older, newer, f')
    requires ListShape(s, older, m) && ListShape(w, newer, m)
    requires forall v :: v in older ==> v in f[s].neighbors[l] || v == w
    requires forall v :: v in f[s].neighbors[l] && v < s && v in f ==> v in older
    requires newer == f[w].neighbors[l] + [s]
    ensures ListsInv(f', m)
  {
    forall u, k | u in f' && 0 <= k < |f'[u].neighbors| ensures ListOk(f', u, k, m) {
      assert ListOk(f, u, k, m);
      RelinkShape(f, s, w, l, older, newer, f', m, u, k);
      RelinkBack(f, s, w, l, older, newer, f', m, u, k);
    }
  }

  lemma RelinkShape(f: Nodes, s: nat, w: nat, l: nat, older: seq<nat>, newer: seq<nat>, f': Nodes, m: nat, u: nat,
                    k: nat)
    requires u in f && k < |f[u].neighbors| && ListOk(f, u, k, m)
    requires Relinked(f, s, w, l, older, newer, f')
    requires ListShape(s, older, m) && ListShape(w, newer, m)
    ensures ListShape(u, f'[u].neighbors[k], m)
  {
    hide ListShape, ListLinks;
  }

  lemma RelinkBack(f: Nodes, s: nat, w: nat, l: nat, older: seq<nat>, newer: seq<nat>, f': Nodes, m: nat, u: nat,
                   k: nat)
    requires ListsInv(f, m) && s in f && w in f && s < w && l <= f[s].level && l <= f[w].level
    requires Relinked(f, s, w, l, older, newer, f')
    requires forall v :: v in older ==> v in f[s].neighbors[l] || v == w
    requires forall v :: v in f[s].neighbors[l] && v < s && v in f ==> v in older
    requires newer == f[w].neighbors[l] + [s]
    requires u in f && k < |f[u].neighbors|
    ensures ListLinks(f', u, k, f'[u].neighbors[k])
  {
    hide ListShape;
    var links := f'[u].neighbors[k];
    assert ListOk(f, u, k, m);
    forall v | v in links && v > u ensures LinksBack(f', v, u, k) {
      if v in f[u].neighbors[k] {
        assert LinksBack(f, v, u, k);
        assert f'[v].neighbors[k] == ListAfter(f, s, w, l, older, newer, v, k);
      } else {
        assert u == s && v == w && k == l;
        assert f'[w].neighbors[l] == newer;
        assert newer[|newer| - 1] == s;
      }
    }
    forall v | v in links && v in f' ensures k <= f'[v].level {
      if v !in f[u].neighbors[k] {
        assert k == l && (v == w || v == s);
      }
    }
  }

  lemma NewListShape(w: nat, links: seq<nat>, s: nat, m: nat)
    requires ListShape(w, links, m) && |links| < m && s < w && s !in links
    requires forall v :: v in links ==> v < w
    ensures ListShape(w, links + [s], m)
  {
    assert forall i :: 0 <= i < |links| ==> links[i] in links;
  }

  lemma ConnectRelinks(nodes: Nodes, w: nat, node: Node, s: nat, l: nat, m: nat)
    requires w !in nodes && s in nodes && l < |nodes[s].neighbors| && l < |node.neighbors|
    ensures var older := Appended(nodes, nodes[s].neighbors[l], w, m);
      var newer := node.neighbors[l] + [s];
      Relinked(nodes[w := node], s, w, l, older, newer,
               Connect(nodes, s, w, l, m)[w := node.(neighbors := node.neighbors[l := newer])])
  {
    hide Appended;
  }

  ghost predicate AllIn(links: seq<nat>, nodes: Nodes) {
    forall v :: v in links ==> v in nodes
  }

  /** Extend the new node's list at level `l`. */
  function Listing(node: Node, l: nat, links: seq<nat>): Node
    requires l < |node.neighbors|
  {
    node.(neighbors := node.neighbors[l := links])
  }

  lemma ConnectKeeps(nodes: Nodes, w: nat, node: Node, s: nat, l: nat, m: nat)
    requires w !in nodes && AllBelow(nodes, w) && ListsInv(nodes[w := node], m)
    requires s in nodes && l < |nodes[s].neighbors| && l < |node.neighbors|
    requires AllIn(node.neighbors[l], nodes) && s !in node.neighbors[l] && |node.neighbors[l]| < m
    ensures ListsInv(Connect(nodes, s, w, l, m)[w := Listing(node, l, node.neighbors[l] + [s])], m)
  {
    var f := nodes[w := node];
    var links := nodes[s].neighbors[l];
    assert f[s] == nodes[s] && f[w] == node;
    assert ListOk(f, s, l, m) && ListOk(f, w, l, m);
    forall v | v in links && v > s ensures v < w {
      assert LinksBack(f, v, s, l);
    }
    AppendedShape(nodes, s, links, w, m);
    NewListShape(w, node.neighbors[l], s, m);
    ConnectRelinks(nodes, w, node, s, l, m);
    hide ListsInv, ListOk, Relinked, Appended, ListShape, ListLinks;
    RelinkKeeps(f, s, w, l, Appended(nodes, links, w, m), node.neighbors[l] + [s],
                Connect(nodes, s, w, l, m)[w := Listing(node, l, node.neighbors[l] + [s])], m);
  }

  // ---------- one level of an insertion ----------

  /** The same nodes with the same vectors, levels and number of lists. */
  ghost predicate SameShape(a: Nodes, b: Nodes) {
    && b.Keys == a.Keys
    && forall u :: u in a ==> b[u].vector == a[u].vector && b[u].level == a[u].level
                              && |b[u].neighbors| == |a[u].neighbors|
  }

  lemma {:induction false} ConnectAllShape(nodes: Nodes, sel: seq<nat>, w: nat, l: nat, m: nat)
    ensures SameShape(nodes, ConnectAll(nodes, sel, w, l, m))
  {
    if sel != [] {
      ConnectAllShape(nodes, sel[..|sel| - 1], w, l, m);
    }
  }

  ghost predicate AllAtLevel(links: seq<nat>, nodes: Nodes, l: nat) {
    forall v :: v in links ==> v in nodes && l < |nodes[v].neighbors|
  }

  lemma {:induction false} ConnectAllKeeps(nodes: Nodes, w: nat, node: Node, sel: seq<nat>, l: nat, m: nat)
    requires w !in nodes && AllBelow(nodes, w) && ListsInv(nodes[w := node], m)
    requires l < |node.neighbors| && node.neighbors[l] == []
    requires NoDup(sel) && |sel| <= m && AllAtLevel(sel, nodes, l)
    ensures ListsInv(ConnectAll(nodes, sel, w, l, m)[w := Listing(node, l, sel)], m)
  {
    if sel == [] {
      assert Listing(node, l, []) == node;
    } else {
      var front, s := sel[..|sel| - 1], sel[|sel| - 1];
      ConnectAllKeeps(nodes, w, node, front, l, m);
      ConnectAllShape(nodes, front, w, l, m);
      assert front + [s] == sel && s in sel;
      hide ListsInv;
      ConnectKeeps(ConnectAll(nodes, front, w, l, m), w, Listing(node, l, front), s, l, m);
      assert Listing(Listing(node, l, front), l, front + [s]) == Listing(node, l, sel);
    }
  }

  /** Live neighbours have the level, so a search from a node of the level stays on it. */
  lemma {:induction false} ReachKeepsLevel(l: Layer, u: nat, v: nat, n: nat)
    requires LevelsOk(l.nodes) && u in l.nodes && l.level <= l.nodes[u].level && l.ReachIn(u, v, n)
    ensures v in l.nodes && l.level <= l.nodes[v].level && l.level < |l.nodes[v].neighbors|
    decreases n
  {
    if n > 0 {
      var x :| l.ReachIn(u, x, n - 1) && l.Edge(x, v);
      ReachKeepsLevel(l, u, x, n - 1);
    }
  }

  ghost predicate LevelsOk(nodes: Nodes) {
    && (forall u :: u in nodes ==> |nodes[u].neighbors| == nodes[u].level + 1)
    && (forall u, l, v :: u in nodes && 0 <= l < |nodes[u].neighbors| && v in nodes[u].neighbors[l] && v in nodes ==>
          l <= nodes[v].level)
  }

  lemma InvLevels(nodes: Nodes, m: nat)
    requires ListsInv(nodes, m)
    ensures LevelsOk(nodes)
  {
    forall u, l, v | u in nodes && 0 <= l < |nodes[u].neighbors| && v in nodes[u].neighbors[l] && v in nodes
      ensures l <= nodes[v].level
    {
      assert ListOk(nodes, u, l, m);
    }
  }

  lemma InvLevelsWithout(nodes: Nodes, w: nat, node: Node, m: nat)
    requires w !in nodes && ListsInv(nodes[w := node], m)
    ensures LevelsOk(nodes)
  {
    var f := nodes[w := node];
    InvLevels(f, m);
    forall u, l, v | u in nodes && 0 <= l < |nodes[u].neighbors| && v in nodes[u].neighbors[l] && v in nodes
      ensures l <= nodes[v].level
    {
      assert f[u] == nodes[u] && f[v] == nodes[v];
    }
    forall u | u in nodes ensures |nodes[u].neighbors| == nodes[u].level + 1 {
      assert f[u] == nodes[u];
    }
  }

  /** What a search from a node of the level returns is on the level. */
  lemma ResultsAtLevel(l: Layer, entry: nat, cap: nat, r: seq<Candidate>, m: nat)
    requires LevelsOk(l.nodes) && LayerResult(l, entry, cap, r) && l.level <= l.nodes[entry].level
    ensures NoDup(Take(Ids(r), m)) && AllAtLevel(Take(Ids(r), m), l.nodes, l.level)
    ensures r[0].id in l.nodes && l.level <= l.nodes[r[0].id].level
  {
    DistinctIds(l, r);
    hide LevelsOk, Settled, NoDup, Sorted;
    forall i | 0 <= i < |r| ensures r[i].id in l.nodes && l.level <= l.nodes[r[i].id].level
        && l.level < |l.nodes[r[i].id].neighbors| {
      assert r[i] in multiset(r);
      var n: nat :| l.ReachIn(entry, r[i].id, n);
      ReachKeepsLevel(l, entry, r[i].id, n);
    }
    hide LayerResult;
    TakenAtLevel(l, r, m);
  }

  lemma TakenAtLevel(l: Layer, r: seq<Candidate>, m: nat)
    requires NoDup(Ids(r)) && forall i :: 0 <= i < |r| ==> r[i].id in l.nodes && l.level < |l.nodes[r[i].id].neighbors|
    ensures NoDup(Take(Ids(r), m)) && AllAtLevel(Take(Ids(r), m), l.nodes, l.level)
  {
    assert forall i :: 0 <= i < |Take(Ids(r), m)| ==> Take(Ids(r), m)[i] == r[i].id;
  }

  // ---------- a whole insertion ----------

  /** The draft of an insertion of `w` whose levels from `l` up are done. */
  ghost predicate DraftInv(cfg: Config, nodes: Nodes, w: nat, vector: Vector, level: nat, l: int, d: Draft) {
    && w !in d.nodes && AllBelow(d.nodes, w) && SameShape(nodes, d.nodes)
    && |d.neighbors| == level + 1
    && (forall k :: 0 <= k < l && k <= level ==> d.neighbors[k] == [])
    && (forall k :: 0 <= k <= level ==> AllIn(d.neighbors[k], nodes))
    && d.ep in d.nodes && l <= d.nodes[d.ep].level + 1
    && ListsInv(d.nodes[w := Node(vector, level, d.neighbors)], cfg.m)
  }

  ghost predicate NonEmptyFrom(lists: seq<seq<nat>>, l: nat, top: int) {
    forall k :: l <= k <= top && k < |lists| ==> lists[k] != []
  }

  lemma LevelKeeps(cfg: Config, nodes: Nodes, w: nat, vector: Vector, level: nat, top: int, l: nat, d: Draft,
                   r: seq<Candidate>, d': Draft)
    requires DraftInv(cfg, nodes, w, vector, level, l + 1, d) && l <= level
    requires LevelStep(cfg, w, vector, d, r, l, d')
    ensures DraftInv(cfg, nodes, w, vector, level, l, d')
    ensures cfg.m >= 1 && NonEmptyFrom(d.neighbors, l + 1, top) ==> NonEmptyFrom(d'.neighbors, l, top)
  {
    var layer := Layer(d.nodes, cfg.metric, vector, l);
    var node := Node(vector, level, d.neighbors);
    InvLevelsWithout(d.nodes, w, node, cfg.m);
    ResultsAtLevel(layer, d.ep, AtLeastOne(cfg.efConstruction), r, cfg.m);
    var sel := Take(Ids(r), cfg.m);
    assert |r| > 0;
    hide ListsInv, LevelsOk, LayerResult;
    ConnectAllKeeps(d.nodes, w, node, sel, l, cfg.m);
    ConnectAllShape(d.nodes, sel, w, l, cfg.m);
    assert Listing(node, l, sel) == Node(vector, level, d'.neighbors);
  }

  lemma {:induction false} InsertKeeps(cfg: Config, nodes: Nodes, w: nat, vector: Vector, level: nat, d0: Draft,
                                       top: int, l: nat, d: Draft)
    requires top <= level && l <= top + 1
    requires DraftInv(cfg, nodes, w, vector, level, top + 1, d0)
    requires Inserted(cfg, w, vector, d0, top, l, d)
    ensures DraftInv(cfg, nodes, w, vector, level, l, d)
    ensures cfg.m >= 1 ==> NonEmptyFrom(d.neighbors, l, top)
    decreases top + 1 - l
  {
    hide DraftInv, LevelStep;
    if l <= top {
      hide NonEmptyFrom;
      var d1, r :| Inserted(cfg, w, vector, d0, top, l + 1, d1) && LevelStep(cfg, w, vector, d1, r, l, d);
      InsertKeeps(cfg, nodes, w, vector, level, d0, top, l + 1, d1);
      LevelKeeps(cfg, nodes, w, vector, level, top, l, d1, r, d);
    }
  }

  lemma {:induction false} DescentKeeps(cfg: Config, nodes: Nodes, vector: Vector, ep: nat, top: int, l: nat, ep': nat)
    requires LevelsOk(nodes) && ep in nodes && top <= nodes[ep].level
    requires Descended(cfg, nodes, vector, ep, top, l, ep')
    ensures ep' in nodes && Min(l, top) <= nodes[ep'].level
    decreases top - l
  {
    hide Descended, DescendStep, LevelsOk;
    if top <= l {
      DescendedNone(cfg, nodes, vector, ep, top, l, ep');
    } else {
      var ep1, r := DescendedLast(cfg, nodes, vector, ep, top, l, ep');
      DescentKeeps(cfg, nodes, vector, ep, top, l + 1, ep1);
      DescendOne(cfg, nodes, vector, l, ep1, r, ep');
    }
  }

  lemma DescendedNone(cfg: Config, nodes: Nodes, vector: Vector, ep: nat, top: int, l: nat, ep': nat)
    requires top <= l && Descended(cfg, nodes, vector, ep, top, l, ep')
    ensures ep' == ep
  {
  }

  lemma DescendedLast(cfg: Config, nodes: Nodes, vector: Vector, ep: nat, top: int, l: nat, ep': nat)
      returns (ep1: nat, r: seq<Candidate>)
    requires l < top && Descended(cfg, nodes, vector, ep, top, l, ep')
    ensures Descended(cfg, nodes, vector, ep, top, l + 1, ep1) && DescendStep(cfg, nodes, vector, l, ep1, r, ep')
  {
    hide DescendStep;
    ep1, r :| Descended(cfg, nodes, vector, ep, top, l + 1, ep1) && DescendStep(cfg, nodes, vector, l, ep1, r, ep');
  }

  lemma DescendOne(cfg: Config, nodes: Nodes, vector: Vector, l: nat, ep: nat, r: seq<Candidate>, ep': nat)
    requires LevelsOk(nodes) && ep in nodes && l + 1 <= nodes[ep].level
    requires DescendStep(cfg, nodes, vector, l, ep, r, ep')
    ensures ep' in nodes && l + 1 <= nodes[ep'].level
  {
    ResultsAtLevel(Layer(nodes, cfg.metric, vector, l + 1), ep, 1, r, 1);
  }

  lemma FreshListsOk(nodes: Nodes, w: nat, node: Node, m: nat)
    requires ListsInv(nodes, m) && w !in nodes && AllBelow(nodes, w)
    requires node.level >= 0 && node.neighbors == NoLinks(node.level)
    ensures ListsInv(nodes[w := node], m)
  {
    var f := nodes[w := node];
    forall u, l | u in f && 0 <= l < |f[u].neighbors| ensures ListOk(f, u, l, m) {
      if u == w {
        assert f[u].neighbors[l] == [];
      } else {
        assert f[u] == nodes[u] && ListOk(nodes, u, l, m);
        assert forall v :: v in nodes[u].neighbors[l] && v > u ==> LinksBack(nodes, v, u, l) && v != w;
        assert w !in nodes[u].neighbors[l];
      }
    }
  }

  lemma AddLinked(cfg: Config, g: Graph, w: nat, vector: Vector, level: nat, ep: nat, d: Draft)
    requires GraphInv(cfg, g) && g.hasEntry && w !in g.nodes && AllBelow(g.nodes, w)
    requires LinkedInto(cfg, g, w, vector, level, ep, d)
    ensures DraftInv(cfg, g.nodes, w, vector, level, 0, d)
    ensures cfg.m >= 1 ==> NonEmptyFrom(d.neighbors, 0, Min(level, g.maxLevel))
  {
    hide Inserted, Descended, DraftInv, NonEmptyFrom;
    var top := Min(level, g.maxLevel);
    FreshDraft(cfg, g, w, vector, level, ep);
    EntryLevel(cfg, g);
    InsertKeeps(cfg, g.nodes, w, vector, level, Draft(g.nodes, NoLinks(level), ep), top, 0, d);
  }

  lemma EntryLevel(cfg: Config, g: Graph)
    requires GraphInv(cfg, g) && g.hasEntry
    ensures g.maxLevel >= -1
  {
    assert |g.nodes[g.entryPoint].neighbors| == g.maxLevel + 1;
  }

  /** The draft an insertion starts from, after the descent. */
  lemma FreshDraft(cfg: Config, g: Graph, w: nat, vector: Vector, level: nat, ep: nat)
    requires GraphInv(cfg, g) && g.hasEntry && w !in g.nodes && AllBelow(g.nodes, w)
    requires Descended(cfg, g.nodes, vector, g.entryPoint, g.maxLevel, level, ep)
    ensures DraftInv(cfg, g.nodes, w, vector, level, Min(level, g.maxLevel) + 1, Draft(g.nodes, NoLinks(level), ep))
  {
    hide ListsInv, LevelsOk, Descended;
    InvLevels(g.nodes, cfg.m);
    DescentKeeps(cfg, g.nodes, vector, g.entryPoint, g.maxLevel, level, ep);
    FreshListsOk(g.nodes, w, Node(vector, level, NoLinks(level)), cfg.m);
  }

  lemma CompletedEntry(cfg: Config, g: Graph, w: nat, vector: Vector, level: nat, d: Draft)
    requires EntryInv(g) && g.hasEntry && w !in g.nodes && SameShape(g.nodes, d.nodes)
    ensures EntryInv(Completed(g, w, vector, level, d))
  {
    var g' := Completed(g, w, vector, level, d);
    assert w in g'.nodes && g.entryPoint in d.nodes;
    forall u | u in g'.nodes ensures g'.nodes[u].level <= g'.maxLevel {
      if u != w { assert u in d.nodes && u in g.nodes; }
    }
  }

  /** An insertion with a fresh greatest id keeps the invariant. */
  lemma AddKeeps(cfg: Config, g: Graph, w: nat, vector: Vector, level: nat, g': Graph)
    requires GraphInv(cfg, g) && AddStep(cfg, g, w, vector, level, g')
    requires AllBelow(g.nodes, w)
    ensures GraphInv(cfg, g')
  {
    if |vector| == cfg.dimensions && w !in g.nodes {
      if !g.hasEntry {
        FreshListsOk(g.nodes, w, Node(vector, level, NoLinks(level)), cfg.m);
        assert w in g'.nodes;
        hide ListsInv;
      } else {
        hide ListsInv, LinkedInto, EntryInv;
        var ep, d :| LinkedInto(cfg, g, w, vector, level, ep, d) && g' == Completed(g, w, vector, level, d);
        AddLinked(cfg, g, w, vector, level, ep, d);
        CompletedEntry(cfg, g, w, vector, level, d);
      }
    }
  }

  /** A node that is not the first gets a neighbour on every level the graph already has. */
  lemma InsertedNodeLinked(cfg: Config, g: Graph, w: nat, vector: Vector, level: nat, g': Graph, l: nat)
    requires GraphInv(cfg, g) && AddStep(cfg, g, w, vector, level, g') && AllBelow(g.nodes, w)
    requires |vector| == cfg.dimensions && g.hasEntry && cfg.m >= 1 && l <= Min(level, g.maxLevel)
    ensures w in g'.nodes && g'.nodes[w].level == level && g'.nodes[w].vector == vector
    ensures l < |g'.nodes[w].neighbors|
    ensures 0 < |g'.nodes[w].neighbors[l]| && AllIn(g'.nodes[w].neighbors[l], g.nodes)
  {
    hide LinkedInto, GraphInv, ListsInv, LevelStep, SameShape;
    var ep, d :| LinkedInto(cfg, g, w, vector, level, ep, d) && g' == Completed(g, w, vector, level, d);
    AddLinked(cfg, g, w, vector, level, ep, d);
    assert d.neighbors[l] != [];
  }

  lemma DraftShape(cfg: Config, nodes: Nodes, w: nat, vector: Vector, level: nat, l: nat, d: Draft)
    requires DraftInv(cfg, nodes, w, vector, level, l, d)
    ensures SameShape(nodes, d.nodes) && w !in d.nodes
  {
  }

  /** Insertion adds the one node and keeps every other node's vector and level. */
  lemma AddNodes(cfg: Config, g: Graph, w: nat, vector: Vector, level: nat, g': Graph)
    requires GraphInv(cfg, g) && AddStep(cfg, g, w, vector, level, g') && AllBelow(g.nodes, w)
    requires |vector| == cfg.dimensions
    ensures g'.nodes.Keys == g.nodes.Keys + {w}
    ensures g'.nodes[w].vector == vector && g'.nodes[w].level == level
    ensures forall u :: u in g.nodes ==>
            g'.nodes[u].vector == g.nodes[u].vector && g'.nodes[u].level == g.nodes[u].level
  {
    hide LinkedInto, GraphInv, DraftInv;
    assert w !in g.nodes;
    if g.hasEntry {
      var ep, d :| LinkedInto(cfg, g, w, vector, level, ep, d) && g' == Completed(g, w, vector, level, d);
      AddLinked(cfg, g, w, vector, level, ep, d);
      DraftShape(cfg, g.nodes, w, vector, level, 0, d);
      CompletedNodes(g, w, vector, level, d);
    }
  }

  lemma CompletedNodes(g: Graph, w: nat, vector: Vector, level: nat, d: Draft)
    requires SameShape(g.nodes, d.nodes) && w !in g.nodes
    ensures var nodes := Completed(g, w, vector, level, d).nodes;
      && nodes.Keys == g.nodes.Keys + {w} && nodes[w].vector == vector && nodes[w].level == level
      && forall u :: u in g.nodes ==> nodes[u].vector == g.nodes[u].vector && nodes[u].level == g.nodes[u].level
  {
    assert forall u :: u in g.nodes ==> u in d.nodes && u != w;
  }

  // ---------- deletion ----------

  lemma {:induction false} WithoutOrder(links: seq<nat>, x: nat, u: nat)
    requires NoDup(links) && OlderFirst(u, links)
    ensures NoDup(Without(links, x)) && OlderFirst(u, Without(links, x))
  {
    if links != [] {
      var prefix, v := links[..|links| - 1], links[|links| - 1];
      WithoutOrder(prefix, x, u);
      var r := Without(prefix, x);
      forall i | 0 <= i < |r| ensures r[i] != v && (r[i] > u ==> r[i] < v) {
        assert r[i] in prefix;
        var k :| 0 <= k < |prefix| && prefix[k] == r[i];
        assert links[k] == r[i];
      }
    }
  }

  lemma {:induction false} WithoutPosition(links: seq<nat>, x: nat, i: nat)
    requires i < |Without(links, x)|
    ensures exists k :: i <= k < |links| && links[k] == Without(links, x)[i]
  {
    var prefix := links[..|links| - 1];
    if i < |Without(prefix, x)| {
      WithoutPosition(prefix, x, i);
      var k :| i <= k < |prefix| && prefix[k] == Without(prefix, x)[i];
      assert links[k] == Without(links, x)[i];
    } else {
      assert links[|links| - 1] == Without(links, x)[i];
    }
  }

  lemma WithoutShape(u: nat, links: seq<nat>, x: nat, m: nat)
    requires ListShape(u, links, m)
    ensures ListShape(u, Without(links, x), m)
  {
    WithoutOrder(links, x, u);
    if |Without(links, x)| > m {
      WithoutPosition(links, x, m);
      var k :| m <= k < |links| && links[k] == Without(links, x)[m];
    }
  }

  lemma UnlinkedListOk(nodes: Nodes, x: nat, m: nat, u: nat, l: nat)
    requires ListsInv(nodes, m) && x in nodes && u in nodes && u != x && l < |nodes[u].neighbors|
    ensures ListOk(Unlinked(nodes, x), u, l, m)
  {
    var nodes', links := Unlinked(nodes, x), nodes[u].neighbors[l];
    var links' := nodes'[u].neighbors[l];
    assert ListOk(nodes, u, l, m);
    WithoutShape(u, links, x, m);
    hide ListShape;
    forall v | v in links' && v > u ensures LinksBack(nodes', v, u, l) {
      assert v in links && LinksBack(nodes, v, u, l);
      assert v != x;
      assert u in nodes'[v].neighbors[l];
    }
  }

  lemma UnlinkedKeeps(nodes: Nodes, x: nat, m: nat)
    requires ListsInv(nodes, m) && x in nodes
    ensures ListsInv(Unlinked(nodes, x), m)
  {
    forall u, l | u in Unlinked(nodes, x) && 0 <= l < |Unlinked(nodes, x)[u].neighbors|
      ensures ListOk(Unlinked(nodes, x), u, l, m)
    {
      UnlinkedListOk(nodes, x, m, u, l);
    }
  }

  lemma DeleteKeeps(cfg: Config, g: Graph, x: nat, g': Graph)
    requires GraphInv(cfg, g) && DeleteStep(g, x, g')
    ensures GraphInv(cfg, g')
    ensures g'.nodes.Keys == g.nodes.Keys - {x}
    ensures forall u :: u in g'.nodes ==>
            g'.nodes[u].vector == g.nodes[u].vector && g'.nodes[u].level == g.nodes[u].level
  {
    if x in g.nodes {
      UnlinkedKeeps(g.nodes, x, cfg.m);
      if g.entryPoint != x {
        hide ListsInv;
        assert g.entryPoint in g'.nodes;
        assert g'.nodes != map[];
      }
    }
  }

  // ---------- runs ----------

  datatype Op = Insert(id: nat, vector: Vector, level: nat) | Remove(id: nat)

  const ID_LIMIT := 0x1_0000_0000_0000_0000

  /** One operation: an insertion whose id exceeds every live id, as GetNextVectorID gives,
      with any level randomLevel can draw; or a deletion. */
  ghost predicate Step(cfg: Config, g: Graph, op: Op, g': Graph) {
    match op
    case Insert(id, vector, level) =>
      AllBelow(g.nodes, id) && id < ID_LIMIT && level <= 32 && AddStep(cfg, g, id, vector, level, g')
    case Remove(id) => DeleteStep(g, id, g')
  }

  /** Some run of `ops` from the empty index ends in `g`. */
  ghost predicate Runs(cfg: Config, ops: seq<Op>, g: Graph) {
    if ops == [] then g == EMPTY
    else
      var front, last := ops[..|ops| - 1], ops[|ops| - 1];
      exists g0 :: Runs(cfg, front, g0) && Step(cfg, g0, last, g)
  }

  /** Ids fit 64 bits, levels are from 0 to 32, vectors have the index's dimension. */
  ghost predicate Sized(cfg: Config, g: Graph) {
    && g.entryPoint < ID_LIMIT && 0 <= g.maxLevel <= 32
    && forall u :: u in g.nodes ==> u < ID_LIMIT && 0 <= g.nodes[u].level <= 32 && |g.nodes[u].vector| == cfg.dimensions
  }

  lemma StepKeeps(cfg: Config, g: Graph, op: Op, g': Graph)
    requires GraphInv(cfg, g) && Sized(cfg, g) && Step(cfg, g, op, g')
    ensures GraphInv(cfg, g') && Sized(cfg, g')
  {
    hide GraphInv, AddStep, DeleteStep;
    match op
    case Insert(id, vector, level) =>
      AddKeeps(cfg, g, id, vector, level, g');
      AddEntryBound(cfg, g, id, vector, level, g');
      if |vector| == cfg.dimensions { AddNodes(cfg, g, id, vector, level, g'); }
      else { RejectedAdd(cfg, g, id, vector, level, g'); }
    case Remove(id) =>
      DeleteKeeps(cfg, g, id, g');
      DeleteEntryBound(g, id, g');
  }

  lemma AddEntryBound(cfg: Config, g: Graph, w: nat, vector: Vector, level: nat, g': Graph)
    requires AddStep(cfg, g, w, vector, level, g')
    ensures g'.entryPoint == g.entryPoint || g'.entryPoint == w
    ensures g'.maxLevel == g.maxLevel || g'.maxLevel == level
  {
    hide LinkedInto;
  }

  lemma DeleteEntryBound(g: Graph, x: nat, g': Graph)
    requires DeleteStep(g, x, g')
    ensures g'.entryPoint == g.entryPoint || (g'.entryPoint in g.nodes && g'.maxLevel == g.nodes[g'.entryPoint].level)
    ensures g'.maxLevel == g.maxLevel || g'.maxLevel == 0
            || (g'.entryPoint in g.nodes && g'.maxLevel == g.nodes[g'.entryPoint].level)
  {
    if x in g.nodes && g.entryPoint == x && g'.hasEntry {
      assert g'.entryPoint in g'.nodes.Keys;
    }
  }

  lemma RejectedAdd(cfg: Config, g: Graph, w: nat, vector: Vector, level: nat, g': Graph)
    requires AddStep(cfg, g, w, vector, level, g') && (|vector| != cfg.dimensions || w in g.nodes)
    ensures g' == g
  {
  }

  /** Every run keeps the graph invariant. */
  lemma {:induction false} RunKeeps(cfg: Config, ops: seq<Op>, g: Graph)
    requires Runs(cfg, ops, g)
    ensures GraphInv(cfg, g) && Sized(cfg, g)
  {
    if ops != [] {
      hide GraphInv, Sized, Step;
      var g0 :| Runs(cfg, ops[..|ops| - 1], g0) && Step(cfg, g0, ops[|ops| - 1], g);
      RunKeeps(cfg, ops[..|ops| - 1], g0);
      StepKeeps(cfg, g0, ops[|ops| - 1], g);
    }
  }

  lemma ShapeFacts(u: nat, links: seq<nat>, m: nat)
    requires ListShape(u, links, m)
    ensures forall i, j :: 0 <= i < j < |links| && links[j] < u ==> links[i] < u
    ensures forall i :: m <= i < |links| ==> links[i] > u
  {
    assert forall i :: 0 <= i < |links| ==> links[i] in links;
  }

  /** The adjacency lists after any run, spelled out. */
  lemma RunLists(cfg: Config, ops: seq<Op>, g: Graph, u: nat, l: nat)
    requires Runs(cfg, ops, g) && u in g.nodes && l <= g.nodes[u].level
    ensures l < |g.nodes[u].neighbors|
    ensures var links := g.nodes[u].neighbors[l];
      && |links| <= 2 * cfg.m && NoDup(links) && u !in links
      && (forall i, j :: 0 <= i < j < |links| && links[j] < u ==> links[i] < u)
      && (forall i :: cfg.m <= i < |links| ==> links[i] > u)
      && (forall v :: v in links && v > u ==> LinksBack(g.nodes, v, u, l))
      && (forall v :: v in links && v !in g.nodes ==> v < u)
      && (forall v :: v in links && v in g.nodes ==> l <= g.nodes[v].level)
  {
    hide Runs, EntryInv, Sized;
    RunKeeps(cfg, ops, g);
    assert ListOk(g.nodes, u, l, cfg.m);
    ShapeFacts(u, g.nodes[u].neighbors[l], cfg.m);
    hide OlderFirst;
    assert forall v :: v in g.nodes[u].neighbors[l] && v > u ==> LinksBack(g.nodes, v, u, l);
  }

  /** The entry point after any run. */
  lemma RunEntry(cfg: Config, ops: seq<Op>, g: Graph)
    requires Runs(cfg, ops, g)
    ensures g.hasEntry <==> g.nodes != map[]
    ensures g.hasEntry ==> g.entryPoint in g.nodes && g.nodes[g.entryPoint].level == g.maxLevel
    ensures forall u :: u in g.nodes ==> 0 <= g.nodes[u].level <= g.maxLevel <= 32
  {
    RunKeeps(cfg, ops, g);
  }
}
