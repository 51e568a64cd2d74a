/** What an insertion finds and links, level by level: the nearest M of the nodes found on each level,
    both ways; and exactly when all nodes of every level list each other. */
module HnswInsert {
  import opened Seqs
  import opened Heap
  import opened LayerSearch
  import opened HnswGraph
  import opened HnswOps
  import opened HnswExact
  import opened HnswUnlisted

  // ---------- levels not touched yet ----------

  /** The two graphs look the same on level `l`. */
  ghost predicate SameLayer(a: Nodes, b: Nodes, l: nat) {
    && SameShape(a, b)
    && forall u :: u in a && l < |a[u].neighbors| ==> b[u].neighbors[l] == a[u].neighbors[l]
  }

  lemma SameEdges(a: Layer, b: Layer)
    requires SameLayer(a.nodes, b.nodes, a.level) && b == a.(nodes := b.nodes)
    ensures forall x, y :: a.Edge(x, y) <==> b.Edge(x, y)
    ensures forall x :: x in a.nodes ==> x in b.nodes && a.Cand(x) == b.Cand(x)
  {
    assert a.nodes.Keys == b.nodes.Keys;
    forall x, y ensures a.Edge(x, y) <==> b.Edge(x, y) {
      assert x in a.nodes.Keys <==> x in b.nodes.Keys;
      assert y in a.nodes.Keys <==> y in b.nodes.Keys;
    }
  }

  lemma SameSettled(a: Layer, b: Layer, cap: nat, r: multiset<Candidate>, v: nat)
    requires v in a.nodes && v in b.nodes && a.Cand(v) == b.Cand(v)
    ensures Settled(a, cap, r, v) <==> Settled(b, cap, r, v)
  {
  }

  /** A search of that level gives the same results. */
  lemma SameResult(a: Layer, b: Layer, entry: nat, cap: nat, r: seq<Candidate>)
    requires SameLayer(a.nodes, b.nodes, a.level) && b == a.(nodes := b.nodes) && LayerResult(b, entry, cap, r)
    ensures LayerResult(a, entry, cap, r)
  {
    assert b.nodes.Keys == a.nodes.Keys;
    SameEdges(a, b);
    hide SameLayer, Settled;
    SameSettled(a, b, cap, multiset(r), entry);
    forall c | c in multiset(r) ensures c.id in a.nodes && c == a.Cand(c.id) && a.Reach(entry, c.id) {
      assert c.id in b.nodes.Keys;
      var n: nat :| b.ReachIn(entry, c.id, n);
      ReachMono(b, a, entry, c.id, n);
    }
    forall c, v | c in r && a.Edge(c.id, v) ensures Settled(a, cap, multiset(r), v) {
      assert b.Edge(c.id, v);
      SameSettled(a, b, cap, multiset(r), v);
    }
  }

  // ---------- one level ----------

  /** `r` is what the insertion finds on level `l` of the graph as it was, searching from `ep`. */
  ghost predicate Found(cfg: Config, nodes: Nodes, vector: Vector, l: nat, ep: nat, r: seq<Candidate>) {
    && ep in nodes && l <= nodes[ep].level
    && LayerResult(Layer(nodes, cfg.metric, vector, l), ep, if cfg.efConstruction < 1 then 1 else cfg.efConstruction, r)
  }

  /** The list of an older node after the levels from `lo` up have been linked. */
  function OlderList(nodes: Nodes, lists: seq<seq<nat>>, w: nat, m: nat, lo: int, u: nat, k: nat): seq<nat>
    requires u in nodes && k < |nodes[u].neighbors|
  {
    if lo <= k < |lists| && u in lists[k] then Appended(nodes, nodes[u].neighbors[k], w, m)
    else nodes[u].neighbors[k]
  }

  ghost predicate OlderLinked(nodes: Nodes, lists: seq<seq<nat>>, w: nat, m: nat, lo: int, nodes': Nodes) {
    && SameShape(nodes, nodes')
    && forall u, k :: u in nodes && 0 <= k < |nodes[u].neighbors| ==>
        nodes'[u].neighbors[k] == OlderList(nodes, lists, w, m, lo, u, k)
  }

  lemma AppendedSame(a: Nodes, b: Nodes, links: seq<nat>, w: nat, m: nat)
    requires a.Keys == b.Keys
    ensures Appended(a, links, w, m) == Appended(b, links, w, m)
  {
    PruneSeesSameNodes(a, b, links + [w]);
  }

  /** Linking one level changes the lists of that level alone. */
  lemma ConnectedAt(d: Nodes, sel: seq<nat>, w: nat, l: nat, m: nat, u: nat, k: nat)
    requires NoDup(sel) && AllAtLevel(sel, d, l) && u in d && k < |d[u].neighbors|
    ensures var after := ConnectAll(d, sel, w, l, m);
      && after.Keys == d.Keys && |after[u].neighbors| == |d[u].neighbors|
      && after[u].neighbors[k] ==
         if k == l && u in sel then Appended(d, d[u].neighbors[k], w, m) else d[u].neighbors[k]
  {
    hide Appended;
    ConnectAllShape(d, sel, w, l, m);
    if l < |d[u].neighbors| {
      ConnectAllLists(d, sel, w, l, m, u);
    } else {
      ConnectAllAbove(d, sel, w, l, m, u);
    }
  }

  lemma {:induction false} ConnectAllAbove(nodes: Nodes, sel: seq<nat>, w: nat, l: nat, m: nat, u: nat)
    requires u in nodes && l >= |nodes[u].neighbors|
    ensures u in ConnectAll(nodes, sel, w, l, m) && ConnectAll(nodes, sel, w, l, m)[u] == nodes[u]
  {
    if sel != [] { ConnectAllAbove(nodes, sel[..|sel| - 1], w, l, m, u); }
  }

  lemma OlderNext(nodes: Nodes, lists: seq<seq<nat>>, w: nat, m: nat, l: nat, d: Nodes, sel: seq<nat>)
    requires OlderLinked(nodes, lists, w, m, l + 1, d) && l < |lists| && NoDup(sel) && AllAtLevel(sel, d, l)
    ensures OlderLinked(nodes, lists[l := sel], w, m, l, ConnectAll(d, sel, w, l, m))
  {
    hide Appended, ConnectAll;
    ConnectAllShape(d, sel, w, l, m);
    forall u, k | u in nodes && 0 <= k < |nodes[u].neighbors|
      ensures ConnectAll(d, sel, w, l, m)[u].neighbors[k] == OlderList(nodes, lists[l := sel], w, m, l, u, k)
    {
      assert u in d.Keys;
      ConnectedAt(d, sel, w, l, m, u, k);
      assert d[u].neighbors[k] == OlderList(nodes, lists, w, m, l + 1, u, k);
      AppendedSame(nodes, d, nodes[u].neighbors[k], w, m);
    }
  }

  lemma StillSame(nodes: Nodes, lists: seq<seq<nat>>, w: nat, m: nat, l: nat, d: Nodes)
    requires OlderLinked(nodes, lists, w, m, l + 1, d)
    ensures SameLayer(nodes, d, l)
  {
    forall u | u in nodes && l < |nodes[u].neighbors| ensures d[u].neighbors[l] == nodes[u].neighbors[l] {
      assert d[u].neighbors[l] == OlderList(nodes, lists, w, m, l + 1, u, l);
    }
  }

  // ---------- all levels ----------

  /** The first `m` of what was found, in the order of their distance. */
  ghost predicate Chosen(links: seq<nat>, r: seq<Candidate>, m: nat) {
    |links| == Min(m, |r|) && forall i :: 0 <= i < |links| ==> links[i] == r[i].id
  }

  /** The search of level `k` starts at the nearest node found one level up. */
  ghost predicate StartsAt(eps: seq<nat>, rs: seq<seq<Candidate>>, k: nat)
    requires k + 1 < |rs| == |eps|
  {
    |rs[k + 1]| > 0 && eps[k] == rs[k + 1][0].id
  }

  /** Levels `l` to `|rs| - 1` have been searched, each from the nearest node found one level up. */
  ghost predicate Searched(cfg: Config, nodes: Nodes, vector: Vector, lists: seq<seq<nat>>, l: nat, eps: seq<nat>,
                           rs: seq<seq<Candidate>>) {
    && |eps| == |rs| <= |lists|
    && (forall k :: l <= k < |rs| ==> Found(cfg, nodes, vector, k, eps[k], rs[k]) && Chosen(lists[k], rs[k], cfg.m))
    && (forall k :: l <= k < |rs| - 1 ==> StartsAt(eps, rs, k))
    && (forall k :: 0 <= k < |lists| && (k < l || k >= |rs|) ==> lists[k] == [])
  }

  lemma SearchedNext(cfg: Config, nodes: Nodes, vector: Vector, lists: seq<seq<nat>>, l: nat, eps: seq<nat>,
                     rs: seq<seq<Candidate>>, ep: nat, r: seq<Candidate>)
    requires Searched(cfg, nodes, vector, lists, l + 1, eps, rs) && l < |rs| && Found(cfg, nodes, vector, l, ep, r)
    requires l + 1 < |rs| ==> |rs[l + 1]| > 0 && ep == rs[l + 1][0].id
    ensures Searched(cfg, nodes, vector, lists[l := Take(Ids(r), cfg.m)], l, eps[l := ep], rs[l := r])
  {
    hide Found, Chosen, StartsAt;
    var lists': seq<seq<nat>> := lists[l := Take(Ids(r), cfg.m)];
    var eps': seq<nat>, rs': seq<seq<Candidate>> := eps[l := ep], rs[l := r];
    FirstChosen(r, cfg.m);
    forall k | l <= k < |rs|
      ensures Found(cfg, nodes, vector, k, eps'[k], rs'[k]) && Chosen(lists'[k], rs'[k], cfg.m)
    {
      if k > l { assert Found(cfg, nodes, vector, k, eps[k], rs[k]) && Chosen(lists[k], rs[k], cfg.m); }
    }
    forall k | l <= k < |rs| - 1 ensures StartsAt(eps', rs', k) {
      if k > l { assert StartsAt(eps, rs, k); }
      StartsNext(eps, rs, l, ep, r, k);
    }
    forall k | 0 <= k < |lists| && (k < l || k >= |rs|) ensures lists'[k] == [] {
      assert lists[k] == [];
    }
  }

  lemma StartsNext(eps: seq<nat>, rs: seq<seq<Candidate>>, l: nat, ep: nat, r: seq<Candidate>, k: nat)
    requires |eps| == |rs| && l <= k < |rs| - 1 && (k > l ==> StartsAt(eps, rs, k))
    requires |rs[l + 1]| > 0 && ep == rs[l + 1][0].id
    ensures StartsAt(eps[l := ep], rs[l := r], k)
  {
    assert rs[l := r][k + 1] == rs[k + 1];
  }

  lemma FirstChosen(r: seq<Candidate>, m: nat)
    ensures Chosen(Take(Ids(r), m), r, m)
  {
  }

  /** The draft with levels `l` to `top` linked, and where the next search starts. */
  ghost predicate DraftSearched(cfg: Config, nodes: Nodes, w: nat, vector: Vector, l: nat, ep: nat, eps: seq<nat>,
                                rs: seq<seq<Candidate>>, d: Draft) {
    && Searched(cfg, nodes, vector, d.neighbors, l, eps, rs)
    && OlderLinked(nodes, d.neighbors, w, cfg.m, l, d.nodes)
    && d.ep == (if l < |rs| && |rs[l]| > 0 then rs[l][0].id else ep)
  }

  lemma LevelFound(cfg: Config, nodes: Nodes, w: nat, vector: Vector, level: nat, l: nat, d: Draft, r: seq<Candidate>,
                   d': Draft)
    requires DraftInv(cfg, nodes, w, vector, level, l + 1, d) && l <= level
    requires LevelStep(cfg, w, vector, d, r, l, d') && SameLayer(nodes, d.nodes, l)
    ensures Found(cfg, nodes, vector, l, d.ep, r) && |r| > 0
    ensures NoDup(Take(Ids(r), cfg.m)) && AllAtLevel(Take(Ids(r), cfg.m), d.nodes, l)
  {
    InvLevelsWithout(d.nodes, w, Node(vector, level, d.neighbors), cfg.m);
    var cap := AtLeastOne(cfg.efConstruction);
    ResultsAtLevel(Layer(d.nodes, cfg.metric, vector, l), d.ep, cap, r, cfg.m);
    assert |r| > 0;
    hide ListsInv, LevelsOk, LayerResult, ConnectAll;
    SameResult(Layer(nodes, cfg.metric, vector, l), Layer(d.nodes, cfg.metric, vector, l), d.ep, cap, r);
    assert d.ep in nodes.Keys;
  }

  lemma LevelSearched(cfg: Config, nodes: Nodes, w: nat, vector: Vector, level: nat, l: nat, ep: nat, eps: seq<nat>,
                      rs: seq<seq<Candidate>>, d: Draft, r: seq<Candidate>, d': Draft)
    requires DraftInv(cfg, nodes, w, vector, level, l + 1, d) && l <= level && LevelStep(cfg, w, vector, d, r, l, d')
    requires DraftSearched(cfg, nodes, w, vector, l + 1, ep, eps, rs, d) && l < |rs|
    requires l + 1 < |rs| ==> |rs[l + 1]| > 0
    ensures DraftSearched(cfg, nodes, w, vector, l, ep, eps[l := d.ep], rs[l := r], d') && |r| > 0
  {
    StillSame(nodes, d.neighbors, w, cfg.m, l, d.nodes);
    LevelFound(cfg, nodes, w, vector, level, l, d, r, d');
    hide DraftInv, LayerResult, ConnectAll, OlderLinked, Searched, Found, SameLayer;
    var sel := Take(Ids(r), cfg.m);
    OlderNext(nodes, d.neighbors, w, cfg.m, l, d.nodes, sel);
    SearchedNext(cfg, nodes, vector, d.neighbors, l, eps, rs, d.ep, r);
  }

  lemma {:induction false} InsertSearched(cfg: Config, nodes: Nodes, w: nat, vector: Vector, level: nat, ep: nat,
                                          top: int, l: nat, d: Draft)
      returns (eps: seq<nat>, rs: seq<seq<Candidate>>)
    requires -1 <= top <= level && l <= top + 1
    requires DraftInv(cfg, nodes, w, vector, level, top + 1, Draft(nodes, NoLinks(level), ep))
    requires Inserted(cfg, w, vector, Draft(nodes, NoLinks(level), ep), top, l, d)
    ensures |rs| == top + 1 && DraftSearched(cfg, nodes, w, vector, l, ep, eps, rs, d)
    ensures l < |rs| ==> |rs[l]| > 0
    ensures l <= top ==> eps[top] == ep
    decreases top + 1 - l
  {
    hide DraftInv, LevelStep, DraftSearched;
    if l > top {
      eps, rs := NothingSearched(cfg, nodes, w, vector, level, ep, top);
    } else {
      var d0 := Draft(nodes, NoLinks(level), ep);
      var d1, r :| Inserted(cfg, w, vector, d0, top, l + 1, d1) && LevelStep(cfg, w, vector, d1, r, l, d);
      eps, rs := InsertSearched(cfg, nodes, w, vector, level, ep, top, l + 1, d1);
      InsertKeeps(cfg, nodes, w, vector, level, d0, top, l + 1, d1);
      LevelSearched(cfg, nodes, w, vector, level, l, ep, eps, rs, d1, r, d);
      hide Inserted;
      DraftStarts(cfg, nodes, w, vector, l + 1, ep, eps, rs, d1);
      eps, rs := eps[l := d1.ep], rs[l := r];
    }
  }

  lemma DraftStarts(cfg: Config, nodes: Nodes, w: nat, vector: Vector, l: nat, ep: nat, eps: seq<nat>,
                    rs: seq<seq<Candidate>>, d: Draft)
    requires DraftSearched(cfg, nodes, w, vector, l, ep, eps, rs, d)
    ensures |eps| == |rs| && (l >= |rs| ==> d.ep == ep)
  {
    hide OlderLinked, Found, Chosen, StartsAt;
  }

  lemma NothingSearched(cfg: Config, nodes: Nodes, w: nat, vector: Vector, level: nat, ep: nat, top: int)
      returns (eps: seq<nat>, rs: seq<seq<Candidate>>)
    requires -1 <= top <= level
    ensures |rs| == top + 1
    ensures DraftSearched(cfg, nodes, w, vector, top + 1, ep, eps, rs, Draft(nodes, NoLinks(level), ep))
  {
    hide Found, Chosen, StartsAt;
    eps, rs := seq(top + 1, _ => 0), seq(top + 1, _ => []);
    NothingOlder(nodes, NoLinks(level), w, cfg.m, top + 1);
    hide OlderLinked;
  }

  lemma NothingOlder(nodes: Nodes, lists: seq<seq<nat>>, w: nat, m: nat, lo: nat)
    requires forall k :: 0 <= k < |lists| ==> lists[k] == []
    ensures OlderLinked(nodes, lists, w, m, lo, nodes)
  {
  }

  /** Every insertion into a non-empty index: level by level, from the lower of its level and MaxLevel
      down, it searches the graph as it was, first from the end of the descent and then from the nearest
      node found one level up, and lists the first M found; above that it lists nobody. */
  lemma InsertionLists(cfg: Config, g: Graph, w: nat, vector: Vector, level: nat, g': Graph)
      returns (eps: seq<nat>, rs: seq<seq<Candidate>>)
    requires GraphInv(cfg, g) && AddStep(cfg, g, w, vector, level, g') && AllBelow(g.nodes, w)
    requires |vector| == cfg.dimensions && g.hasEntry
    ensures w in g'.nodes && |g'.nodes[w].neighbors| == level + 1 && |rs| == Min(level, g.maxLevel) + 1
    ensures Searched(cfg, g.nodes, vector, g'.nodes[w].neighbors, 0, eps, rs)
    ensures |rs| > 0 ==> Descended(cfg, g.nodes, vector, g.entryPoint, g.maxLevel, level, eps[|rs| - 1])
    ensures OlderLinked(g.nodes, g'.nodes[w].neighbors, w, cfg.m, 0, g'.nodes - {w})
  {
    hide GraphInv, Inserted, Descended, DraftInv, Searched, OlderLinked;
    assert w !in g.nodes;
    var ep, d :| LinkedInto(cfg, g, w, vector, level, ep, d) && g' == Completed(g, w, vector, level, d);
    FreshDraft(cfg, g, w, vector, level, ep);
    EntryLevel(cfg, g);
    var top := Min(level, g.maxLevel);
    eps, rs := InsertSearched(cfg, g.nodes, w, vector, level, ep, top, 0, d);
    InsertKeeps(cfg, g.nodes, w, vector, level, Draft(g.nodes, NoLinks(level), ep), top, 0, d);
    DraftShape(cfg, g.nodes, w, vector, level, 0, d);
    DraftCount(cfg, g.nodes, w, vector, level, d);
    assert g'.nodes - {w} == d.nodes;
  }

  lemma DraftCount(cfg: Config, nodes: Nodes, w: nat, vector: Vector, level: nat, d: Draft)
    requires DraftInv(cfg, nodes, w, vector, level, 0, d)
    ensures |d.neighbors| == level + 1
  {
  }

  /** On every level the graph already has, the new list holds min(M, found) of the nodes found there,
      and none of them is farther than a found node left out. */
  lemma NearestLinked(cfg: Config, g: Graph, w: nat, vector: Vector, level: nat, g': Graph, l: nat)
      returns (ep: nat, r: seq<Candidate>)
    requires GraphInv(cfg, g) && AddStep(cfg, g, w, vector, level, g') && AllBelow(g.nodes, w)
    requires |vector| == cfg.dimensions && g.hasEntry && l <= Min(level, g.maxLevel)
    ensures w in g'.nodes && l < |g'.nodes[w].neighbors| && Found(cfg, g.nodes, vector, l, ep, r)
    ensures var links, layer := g'.nodes[w].neighbors[l], Layer(g.nodes, cfg.metric, vector, l);
      && |links| == Min(cfg.m, |r|) && NoDup(links)
      && (forall u :: u in links ==> u in g.nodes && layer.Cand(u) in r)
      && forall u, c :: u in links && c in r && c.id !in links ==> layer.Dist(u) <= c.distance
  {
    hide GraphInv, AddStep, Searched, OlderLinked, Descended, Found;
    var eps, rs := InsertionLists(cfg, g, w, vector, level, g');
    SearchedAt(cfg, g.nodes, vector, g'.nodes[w].neighbors, eps, rs, l);
    ep, r := eps[l], rs[l];
    NearestChosen(cfg, g.nodes, vector, l, ep, r, g'.nodes[w].neighbors[l]);
  }

  lemma NearestChosen(cfg: Config, nodes: Nodes, vector: Vector, l: nat, ep: nat, r: seq<Candidate>, links: seq<nat>)
    requires Found(cfg, nodes, vector, l, ep, r) && Chosen(links, r, cfg.m)
    ensures var layer := Layer(nodes, cfg.metric, vector, l);
      && NoDup(links) && (forall u :: u in links ==> u in nodes && layer.Cand(u) in r)
      && forall u, c :: u in links && c in r && c.id !in links ==> layer.Dist(u) <= c.distance
  {
    var layer := Layer(nodes, cfg.metric, vector, l);
    var cap := if cfg.efConstruction < 1 then 1 else cfg.efConstruction;
    ResultSorted(layer, ep, r, cap);
    DistinctIds(layer, r);
    hide LayerResult, Found, Single;
    forall u | u in links ensures u in nodes && layer.Cand(u) in r {
      var i :| 0 <= i < |links| && links[i] == u;
      assert Ids(r)[i] == u;
    }
    forall u, c | u in links && c in r && c.id !in links ensures layer.Dist(u) <= c.distance {
      LeftOut(layer, r, links, cfg.m, u, c);
    }
  }

  lemma LeftOut(l: Layer, r: seq<Candidate>, links: seq<nat>, m: nat, u: nat, c: Candidate)
    requires Sorted(r) && Scored(l, multiset(r)) && Chosen(links, r, m) && u in links && c in r && c.id !in links
    ensures u in l.nodes && l.Dist(u) <= c.distance
  {
    var i :| 0 <= i < |links| && links[i] == u;
    var j :| 0 <= j < |r| && r[j] == c;
    assert j >= |links|;
    assert r[i] in multiset(r);
  }

  lemma ResultSorted(l: Layer, ep: nat, r: seq<Candidate>, cap: nat)
    requires LayerResult(l, ep, cap, r)
    ensures Sorted(r) && Scored(l, multiset(r)) && Single(multiset(r))
  {
  }

  /** What an insertion does to the nodes already there: a node it lists appends the new id while it has
      room, and keeps its first M live entries when it is full; nobody else changes. */
  lemma OlderLists(cfg: Config, g: Graph, w: nat, vector: Vector, level: nat, g': Graph, u: nat, l: nat)
    requires GraphInv(cfg, g) && AddStep(cfg, g, w, vector, level, g') && AllBelow(g.nodes, w)
    requires |vector| == cfg.dimensions && g.hasEntry && u in g.nodes && l < |g.nodes[u].neighbors|
    ensures w in g'.nodes && u in g'.nodes && l < |g'.nodes[u].neighbors|
    ensures var was, links := g.nodes[u].neighbors[l], g'.nodes[u].neighbors[l];
      if l < |g'.nodes[w].neighbors| && u in g'.nodes[w].neighbors[l]
      then links == if |was| < 2 * cfg.m then was + [w] else Take(LiveOnly(g.nodes, was), cfg.m)
      else links == was
  {
    hide AddStep, Searched, LiveOnly;
    var eps, rs := InsertionLists(cfg, g, w, vector, level, g');
    var rest := g'.nodes - {w};
    assert u in rest && rest[u] == g'.nodes[u];
    assert rest[u].neighbors[l] == OlderList(g.nodes, g'.nodes[w].neighbors, w, cfg.m, 0, u, l);
    var was := g.nodes[u].neighbors[l];
    assert ListOk(g.nodes, u, l, cfg.m);
    assert w !in was;
    DeadLast(g.nodes, was, w);
  }

  lemma DeadLast(nodes: Nodes, links: seq<nat>, w: nat)
    requires w !in nodes
    ensures LiveOnly(nodes, links + [w]) == LiveOnly(nodes, links)
  {
    assert (links + [w])[..|links|] == links;
  }

  // ---------- when all nodes list each other ----------

  /** Any two nodes list each other on every level they share. */
  ghost predicate Complete(nodes: Nodes) {
    forall u, v, l :: u in nodes && v in nodes && u != v && 0 <= l <= nodes[u].level && l <= nodes[v].level ==>
        LinksBack(nodes, u, v, l)
  }

  lemma AllOfLevelFound(cfg: Config, nodes: Nodes, vector: Vector, l: nat, ep: nat, r: seq<Candidate>, u: nat)
    requires Complete(nodes) && Found(cfg, nodes, vector, l, ep, r) && u in nodes && l <= nodes[u].level
    requires |nodes| <= (if cfg.efConstruction < 1 then 1 else cfg.efConstruction)
    ensures u in Ids(r)
  {
    var layer := Layer(nodes, cfg.metric, vector, l);
    var cap := if cfg.efConstruction < 1 then 1 else cfg.efConstruction;
    ReachSelf(layer, ep);
    hide LayerResult;
    if u != ep {
      assert LinksBack(nodes, ep, u, l);
      assert layer.Edge(ep, u);
      ReachStep(layer, ep, ep, u);
    }
    ReturnsReachable(layer, ep, cap, r, u);
  }

  lemma FewFound(cfg: Config, nodes: Nodes, vector: Vector, l: nat, ep: nat, r: seq<Candidate>)
    requires Found(cfg, nodes, vector, l, ep, r)
    ensures |r| <= |nodes| && |r| <= (if cfg.efConstruction < 1 then 1 else cfg.efConstruction)
  {
    DistinctIds(Layer(nodes, cfg.metric, vector, l), r);
    NoDupSize(Ids(r));
    assert Elems(Ids(r)) <= nodes.Keys;
    SubsetSize(Elems(Ids(r)), nodes.Keys);
    assert |nodes.Keys| == |nodes|;
  }

  lemma SearchedAt(cfg: Config, nodes: Nodes, vector: Vector, lists: seq<seq<nat>>, eps: seq<nat>,
                   rs: seq<seq<Candidate>>, l: nat)
    requires Searched(cfg, nodes, vector, lists, 0, eps, rs) && l < |rs|
    ensures |eps| == |rs| <= |lists| && Found(cfg, nodes, vector, l, eps[l], rs[l]) && Chosen(lists[l], rs[l], cfg.m)
  {
    hide Found, Chosen, StartsAt;
  }

  lemma AllChosen(links: seq<nat>, r: seq<Candidate>, m: nat, u: nat)
    requires Chosen(links, r, m) && |r| <= m && u in Ids(r)
    ensures u in links
  {
    var i :| 0 <= i < |Ids(r)| && Ids(r)[i] == u;
    assert links[i] == u;
  }

  /** The new node lists all nodes of its levels. */
  lemma NewListsAll(cfg: Config, g: Graph, w: nat, vector: Vector, level: nat, g': Graph, u: nat, l: nat)
    requires GraphInv(cfg, g) && AddStep(cfg, g, w, vector, level, g') && AllBelow(g.nodes, w)
    requires |vector| == cfg.dimensions && g.hasEntry && Complete(g.nodes) && |g.nodes| <= cfg.m
    requires |g.nodes| <= (if cfg.efConstruction < 1 then 1 else cfg.efConstruction)
    requires u in g.nodes && l <= g.nodes[u].level && l <= level
    ensures w in g'.nodes && l < |g'.nodes[w].neighbors| && u in g'.nodes[w].neighbors[l]
  {
    assert l <= g.maxLevel;
    hide GraphInv, AddStep, Complete, OlderLinked, Found, Searched, Descended;
    var eps, rs := InsertionLists(cfg, g, w, vector, level, g');
    SearchedAt(cfg, g.nodes, vector, g'.nodes[w].neighbors, eps, rs, l);
    AllOfLevelFound(cfg, g.nodes, vector, l, eps[l], rs[l], u);
    FewFound(cfg, g.nodes, vector, l, eps[l], rs[l]);
    AllChosen(g'.nodes[w].neighbors[l], rs[l], cfg.m, u);
  }

  lemma ShortLists(cfg: Config, g: Graph, u: nat, l: nat)
    requires GraphInv(cfg, g) && u in g.nodes && l < |g.nodes[u].neighbors|
    requires AllIn(g.nodes[u].neighbors[l], g.nodes)
    ensures |g.nodes[u].neighbors[l]| < |g.nodes|
  {
    var links := g.nodes[u].neighbors[l];
    assert ListOk(g.nodes, u, l, cfg.m);
    hide GraphInv;
    NoDupSize(links);
    assert Elems(links) <= g.nodes.Keys - {u};
    SubsetSize(Elems(links), g.nodes.Keys - {u});
    assert |g.nodes.Keys| == |g.nodes|;
  }

  lemma LevelHasList(cfg: Config, g: Graph, u: nat, l: nat)
    requires GraphInv(cfg, g) && u in g.nodes && l <= g.nodes[u].level
    ensures l < |g.nodes[u].neighbors|
  {
  }

  lemma MutualAllIn(nodes: Nodes, u: nat, l: nat)
    requires Mutual(nodes) && u in nodes && l < |nodes[u].neighbors|
    ensures AllIn(nodes[u].neighbors[l], nodes)
  {
  }

  /** Two old nodes stay linked, and a listed one takes the new node in. */
  lemma OldStaysLinked(cfg: Config, g: Graph, w: nat, vector: Vector, level: nat, g': Graph, u: nat, l: nat)
    requires GraphInv(cfg, g) && AddStep(cfg, g, w, vector, level, g') && AllBelow(g.nodes, w)
    requires |vector| == cfg.dimensions && g.hasEntry && Mutual(g.nodes) && |g.nodes| <= cfg.m
    requires u in g.nodes && l < |g.nodes[u].neighbors|
    ensures w in g'.nodes && u in g'.nodes && l < |g'.nodes[u].neighbors|
    ensures forall v :: v in g.nodes[u].neighbors[l] ==> v in g'.nodes[u].neighbors[l]
    ensures l < |g'.nodes[w].neighbors| && u in g'.nodes[w].neighbors[l] ==> w in g'.nodes[u].neighbors[l]
  {
    hide GraphInv, AddStep, Mutual;
    MutualAllIn(g.nodes, u, l);
    ShortLists(cfg, g, u, l);
    OlderLists(cfg, g, w, vector, level, g', u, l);
  }

  lemma CompleteAdd(cfg: Config, g: Graph, w: nat, vector: Vector, level: nat, g': Graph)
    requires GraphInv(cfg, g) && AddStep(cfg, g, w, vector, level, g') && AllBelow(g.nodes, w)
    requires |vector| == cfg.dimensions && g.hasEntry && Complete(g.nodes) && Mutual(g.nodes) && |g.nodes| <= cfg.m
    requires |g.nodes| <= (if cfg.efConstruction < 1 then 1 else cfg.efConstruction)
    ensures Complete(g'.nodes)
  {
    hide GraphInv, AddStep, Mutual;
    AddNodes(cfg, g, w, vector, level, g');
    var nodes := g'.nodes;
    forall u, v, l | u in nodes && v in nodes && u != v && 0 <= l <= nodes[u].level && l <= nodes[v].level
      ensures LinksBack(nodes, u, v, l)
    {
      assert u in g.nodes.Keys || u == w;
      assert v in g.nodes.Keys || v == w;
      if u == w {
        NewListsAll(cfg, g, w, vector, level, g', v, l);
      } else {
        LevelHasList(cfg, g, u, l);
        OldStaysLinked(cfg, g, w, vector, level, g', u, l);
        if v == w {
          NewListsAll(cfg, g, w, vector, level, g', u, l);
        } else {
          assert LinksBack(g.nodes, u, v, l);
        }
      }
    }
  }

  lemma FewComplete(nodes: Nodes)
    requires |nodes| <= 1
    ensures Complete(nodes)
  {
    forall u, v | u in nodes && v in nodes ensures u == v {
      if u != v { SubsetSize({u, v}, nodes.Keys); }
    }
  }

  lemma {:induction false} CompleteRun(cfg: Config, ops: seq<Op>, g: Graph)
    requires InsertOnly(ops) && Runs(cfg, ops, g) && |g.nodes| <= cfg.m + 1
    requires |g.nodes| <= (if cfg.efConstruction < 1 then 1 else cfg.efConstruction) + 1
    ensures Complete(g.nodes)
  {
    if |g.nodes| <= 1 {
      FewComplete(g.nodes);
    } else {
      var front, g0 := RunFront(cfg, ops, g);
      hide Runs, Complete, AddStep, GraphInv, InsertOnly, Mutual, Connected;
      RunKeeps(cfg, front, g0);
      var last := ops[|ops| - 1];
      if |last.vector| != cfg.dimensions {
        RejectedAdd(cfg, g0, last.id, last.vector, last.level, g);
        CompleteRun(cfg, front, g0);
      } else {
        AddNodes(cfg, g0, last.id, last.vector, last.level, g);
        OneMore(g0.nodes, g.nodes, last.id);
        CompleteRun(cfg, front, g0);
        RunEntry(cfg, front, g0);
        SmallRun(cfg, front, g0);
        CompleteAdd(cfg, g0, last.id, last.vector, last.level, g);
      }
    }
  }

  lemma OneMore(a: Nodes, b: Nodes, w: nat)
    requires b.Keys == a.Keys + {w} && AllBelow(a, w)
    ensures |b| == |a| + 1 && w !in a
  {
    assert w !in a.Keys;
    assert |b.Keys| == |b| && |a.Keys| == |a|;
  }

  /** The run without its last insertion. */
  lemma RunFront(cfg: Config, ops: seq<Op>, g: Graph) returns (front: seq<Op>, g0: Graph)
    requires InsertOnly(ops) && Runs(cfg, ops, g) && |g.nodes| > 0
    ensures |ops| > 0 && front == ops[..|ops| - 1] && InsertOnly(front) && Runs(cfg, front, g0)
    ensures var last := ops[|ops| - 1];
      last.Insert? && AllBelow(g0.nodes, last.id) && AddStep(cfg, g0, last.id, last.vector, last.level, g)
  {
    hide AddStep;
    front := ops[..|ops| - 1];
    g0 :| Runs(cfg, front, g0) && Step(cfg, g0, ops[|ops| - 1], g);
  }

  /** The newest node lists at most min(M, efConstruction) nodes. */
  lemma {:induction false} NewestList(cfg: Config, ops: seq<Op>, g: Graph) returns (w: nat)
    requires InsertOnly(ops) && Runs(cfg, ops, g) && |g.nodes| > 0
    ensures w in g.nodes && |g.nodes[w].neighbors| > 0 && |g.nodes[w].neighbors[0]| <= cfg.m
    ensures |g.nodes[w].neighbors[0]| <= (if cfg.efConstruction < 1 then 1 else cfg.efConstruction)
  {
    var front, g0 := RunFront(cfg, ops, g);
    hide Runs, GraphInv, InsertOnly;
    RunKeeps(cfg, front, g0);
    RunEntry(cfg, front, g0);
    var last := ops[|ops| - 1];
    if |last.vector| != cfg.dimensions {
      RejectedAdd(cfg, g0, last.id, last.vector, last.level, g);
      w := NewestList(cfg, front, g0);
    } else {
      w := last.id;
      if g0.hasEntry {
        hide AddStep, Found;
        var ep, r := NearestLinked(cfg, g0, w, last.vector, last.level, g, 0);
        FewFound(cfg, g0.nodes, last.vector, 0, ep, r);
      }
    }
  }

  lemma ListOfAll(nodes: Nodes, w: nat)
    requires Complete(nodes) && w in nodes && |nodes[w].neighbors| > 0
    requires forall u :: u in nodes ==> nodes[u].level >= 0
    ensures |nodes| <= |nodes[w].neighbors[0]| + 1
  {
    var links := nodes[w].neighbors[0];
    forall u | u in nodes.Keys - {w} ensures u in Elems(links) { assert LinksBack(nodes, w, u, 0); }
    SubsetSize(nodes.Keys - {w}, Elems(links));
    ElemsSize(links);
    assert |nodes.Keys| == |nodes|;
  }

  lemma {:induction false} ElemsSize(s: seq<nat>)
    ensures |Elems(s)| <= |s|
  {
    if s != [] {
      ElemsSize(s[..|s| - 1]);
      SplitLast(s);
      assert Elems(s) == Elems(s[..|s| - 1]) + {s[|s| - 1]};
    } else {
      assert Elems(s) == {};
    }
  }

  /** In an insert-only run all nodes list each other, on every level they share, if and only if there
      are at most M+1 and at most efConstruction+1 of them. */
  lemma CompleteIff(cfg: Config, ops: seq<Op>, g: Graph)
    requires InsertOnly(ops) && Runs(cfg, ops, g)
    ensures Complete(g.nodes) <==>
            |g.nodes| <= cfg.m + 1 && |g.nodes| <= (if cfg.efConstruction < 1 then 1 else cfg.efConstruction) + 1
  {
    hide Runs, Complete, InsertOnly;
    if |g.nodes| <= cfg.m + 1 && |g.nodes| <= (if cfg.efConstruction < 1 then 1 else cfg.efConstruction) + 1 {
      CompleteRun(cfg, ops, g);
    } else if Complete(g.nodes) {
      var w := NewestList(cfg, ops, g);
      RunEntry(cfg, ops, g);
      ListOfAll(g.nodes, w);
    }
  }

  // ---------- the greedy descent ----------

  /** No neighbour of `u` on the layer is nearer. */
  ghost predicate Nearest(l: Layer, u: nat) {
    u in l.nodes && forall v :: l.Edge(u, v) ==> l.Dist(u) <= l.Dist(v)
  }

  lemma OneResult(l: Layer, ep: nat, r: seq<Candidate>)
    requires LayerResult(l, ep, 1, r)
    ensures Nearest(l, r[0].id) && l.Reach(ep, r[0].id) && ep in l.nodes && l.Dist(r[0].id) <= l.Dist(ep)
  {
    assert r[0] in multiset(r) && r == [r[0]];
    forall v | l.Edge(r[0].id, v) ensures l.Dist(r[0].id) <= l.Dist(v) {
      assert Settled(l, 1, multiset(r), v);
    }
  }

  /** One step of a descent on level `l`. */
  ghost predicate Hop(cfg: Config, nodes: Nodes, query: Vector, l: int, u: nat, v: nat) {
    && l >= 0 && u in nodes
    && var layer := Layer(nodes, cfg.metric, query, l);
      layer.Reach(u, v) && Nearest(layer, v) && layer.Dist(v) <= layer.Dist(u)
  }

  /** The entry points of a descent: each is reached on its layer from the one before, is no farther from
      the query, and has no nearer neighbour there. */
  lemma {:induction false} DescentPath(cfg: Config, nodes: Nodes, query: Vector, ep: nat, top: int, level: nat,
                                       ep': nat) returns (path: seq<nat>)
    requires Descended(cfg, nodes, query, ep, top, level, ep') && ep in nodes
    ensures |path| == (if top <= level then 0 else top - level) + 1 && path[0] == ep && path[|path| - 1] == ep'
    ensures forall i :: 0 <= i < |path| - 1 ==> Hop(cfg, nodes, query, top - i, path[i], path[i + 1])
    ensures ep' in nodes
    decreases top - level
  {
    hide LayerResult;
    if top <= level {
      path := [ep];
    } else {
      var ep1, r :| Descended(cfg, nodes, query, ep, top, level + 1, ep1)
          && DescendStep(cfg, nodes, query, level, ep1, r, ep');
      var front := DescentPath(cfg, nodes, query, ep, top, level + 1, ep1);
      OneResult(Layer(nodes, cfg.metric, query, level + 1), ep1, r);
      assert Hop(cfg, nodes, query, level + 1, ep1, ep');
      hide Hop;
      path := front + [ep'];
      forall i | 0 <= i < |path| - 1 ensures Hop(cfg, nodes, query, top - i, path[i], path[i + 1]) {
        if i < |front| - 1 { assert path[i] == front[i] && path[i + 1] == front[i + 1]; }
      }
    }
  }

  /** In a small insert-only index the descent ends in the nearest of all nodes above its level. */
  lemma SmallDescent(cfg: Config, ops: seq<Op>, g: Graph, query: Vector, level: nat, ep: nat, v: nat)
    requires InsertOnly(ops) && Runs(cfg, ops, g) && g.hasEntry && |g.nodes| <= cfg.m + 1
    requires |g.nodes| <= (if cfg.efConstruction < 1 then 1 else cfg.efConstruction) + 1
    requires Descended(cfg, g.nodes, query, g.entryPoint, g.maxLevel, level, ep)
    requires v in g.nodes && g.nodes[v].level > level
    ensures ep in g.nodes && cfg.metric(query, g.nodes[ep].vector) <= cfg.metric(query, g.nodes[v].vector)
  {
    hide Runs, InsertOnly, Descended;
    CompleteRun(cfg, ops, g);
    RunEntry(cfg, ops, g);
    RunKeeps(cfg, ops, g);
    InvLevels(g.nodes, cfg.m);
    hide GraphInv, LevelsOk, Sized;
    var path := DescentPath(cfg, g.nodes, query, g.entryPoint, g.maxLevel, level, ep);
    var l := Layer(g.nodes, cfg.metric, query, level + 1);
    var ep1, r := DescendedLast(cfg, g.nodes, query, g.entryPoint, g.maxLevel, level, ep);
    DescentKeeps(cfg, g.nodes, query, g.entryPoint, g.maxLevel, level + 1, ep1);
    DescendOne(cfg, g.nodes, query, level, ep1, r, ep);
    var n := |path| - 2;
    assert Hop(cfg, g.nodes, query, g.maxLevel - n, path[n], path[n + 1]);
    if v != ep {
      assert LinksBack(g.nodes, ep, v, level + 1);
      assert l.Edge(ep, v);
    }
  }

  /** The entry point moves exactly when the new node is above all others. */
  lemma EntryMoves(cfg: Config, g: Graph, w: nat, vector: Vector, level: nat, g': Graph)
    requires GraphInv(cfg, g) && AddStep(cfg, g, w, vector, level, g') && AllBelow(g.nodes, w)
    requires |vector| == cfg.dimensions
    ensures g'.hasEntry
    ensures g'.entryPoint == w <==> forall u :: u in g.nodes ==> g.nodes[u].level < level
    ensures g'.entryPoint != w ==> g.hasEntry && g'.entryPoint == g.entryPoint
  {
    hide LinkedInto, ListsInv;
    assert w !in g.nodes;
  }
}
