/** Small facts that tie the methods of the index object to the graph operations. */
module HnswOps {
  import opened Wrappers
  import opened Heap
  import opened LayerSearch
  import opened HnswGraph

  /** selectNeighbors: the first `m`. */
  function SelectNeighbors(candidates: seq<Candidate>, m: nat): (r: seq<Candidate>)
    ensures Ids(r) == Take(Ids(candidates), m)
  {
    if |candidates| <= m then candidates else candidates[..m]
  }

  lemma LiveNext(nodes: Nodes, links: seq<nat>, i: nat)
    requires i < |links|
    ensures LiveOnly(nodes, links[..i + 1])
         == LiveOnly(nodes, links[..i]) + (if links[i] in nodes then [links[i]] else [])
  {
    assert links[..i + 1][..i] == links[..i];
    assert LiveOnly(nodes, links[..i]) + [] == LiveOnly(nodes, links[..i]);
  }

  /** Pruning keeps the live entries where they stand among each other. */
  lemma {:induction false} LiveInOrder(nodes: Nodes, a: seq<nat>, b: seq<nat>)
    ensures LiveOnly(nodes, a + b) == LiveOnly(nodes, a) + LiveOnly(nodes, b)
    ensures |a| == 1 ==> LiveOnly(nodes, a) == if a[0] in nodes then a else []
    decreases |b|
  {
    if b == [] {
      assert a + b == a;
      if |a| == 1 { assert a[..0] == [] && a == [a[0]]; }
    } else {
      LiveInOrder(nodes, a, b[..|b| - 1]);
      assert (a + b)[..|a + b| - 1] == a + b[..|b| - 1];
    }
  }

  lemma IdsNext(candidates: seq<Candidate>, c: Candidate)
    ensures Ids(candidates + [c]) == Ids(candidates) + [c.id]
  {
  }

  lemma {:induction false} PruneSeesSameNodes(a: Nodes, b: Nodes, links: seq<nat>)
    requires a.Keys == b.Keys
    ensures LiveOnly(a, links) == LiveOnly(b, links)
  {
    if links != [] {
      PruneSeesSameNodes(a, b, links[..|links| - 1]);
      assert links[|links| - 1] in a <==> links[|links| - 1] in b.Keys;
    }
  }

  lemma NothingInserted(cfg: Config, w: nat, vector: Vector, d0: Draft, top: int, level: nat)
    requires level > top
    ensures Inserted(cfg, w, vector, d0, top, level, d0)
  {
  }

  lemma InsertedNext(cfg: Config, w: nat, vector: Vector, d0: Draft, top: int, level: nat, d: Draft, r: seq<Candidate>,
                     d': Draft)
    requires level <= top && Inserted(cfg, w, vector, d0, top, level + 1, d)
    requires LevelStep(cfg, w, vector, d, r, level, d')
    ensures Inserted(cfg, w, vector, d0, top, level, d')
    ensures |d'.neighbors| == |d.neighbors|
  {
    hide LayerResult, ConnectAll;
  }

  lemma SetLinksSame(nodes: Nodes, id: nat, level: nat)
    requires id in nodes && level < |nodes[id].neighbors|
    ensures SetLinks(nodes, id, level, nodes[id].neighbors[level]) == nodes
  {
    var n := nodes[id];
    assert n.neighbors[level := n.neighbors[level]] == n.neighbors;
    assert n.(neighbors := n.neighbors) == n;
  }

  lemma SetLinksTwice(nodes: Nodes, id: nat, level: nat, a: seq<nat>, b: seq<nat>)
    requires id in nodes && level < |nodes[id].neighbors|
    ensures SetLinks(SetLinks(nodes, id, level, a), id, level, b) == SetLinks(nodes, id, level, b)
  {
    var n := nodes[id];
    assert n.neighbors[level := a][level := b] == n.neighbors[level := b];
  }

  // ---------- batches ----------

  datatype Item = Item(id: nat, vector: Vector, level: nat)

  /** BatchAdd: the items in turn, rejected ones skipped. */
  ghost predicate Batched(cfg: Config, g: Graph, items: seq<Item>, g': Graph) {
    if items == [] then g' == g
    else
      var front, last := items[..|items| - 1], items[|items| - 1];
      exists g1 :: Batched(cfg, g, front, g1) && AddStep(cfg, g1, last.id, last.vector, last.level, g')
  }

  // ---------- deletion, link by link ----------

  /** `u` has been told at level `k` when levels below `l` and the first `i` entries of level
      `l` of the deleted node's lists are done. */
  predicate Told(out: seq<seq<nat>>, l: nat, i: nat, u: nat, k: nat) {
    && k < |out|
    && ((k < l && u in out[k]) || (k == l && i <= |out[k]| && u in out[k][..i]))
  }

  function PartLists(n: seq<seq<nat>>, x: nat, out: seq<seq<nat>>, l: nat, i: nat, u: nat): (r: seq<seq<nat>>)
    ensures |r| == |n|
    ensures forall k :: 0 <= k < |n| ==> r[k] == if Told(out, l, i, u, k) then Without(n[k], x) else n[k]
  {
    seq(|n|, k requires 0 <= k < |n| => if Told(out, l, i, u, k) then Without(n[k], x) else n[k])
  }

  function PartlyUnlinked(nodes: Nodes, x: nat, out: seq<seq<nat>>, l: nat, i: nat): (r: Nodes)
    ensures r.Keys == nodes.Keys
  {
    map u | u in nodes :: nodes[u].(neighbors := PartLists(nodes[u].neighbors, x, out, l, i, u))
  }

  /** removeConnection. */
  function Disconnect(nodes: Nodes, s: nat, x: nat, level: nat): Nodes {
    if s !in nodes || level >= |nodes[s].neighbors| then nodes
    else SetLinks(nodes, s, level, Without(nodes[s].neighbors[level], x))
  }

  lemma {:induction false} WithoutAbsent(links: seq<nat>, x: nat)
    requires x !in links
    ensures Without(links, x) == links
  {
    if links != [] {
      WithoutAbsent(links[..|links| - 1], x);
    }
  }

  lemma ToldNext(out: seq<seq<nat>>, l: nat, i: nat, u: nat, k: nat)
    requires l < |out| && i < |out[l]|
    ensures Told(out, l, i + 1, u, k) <==> Told(out, l, i, u, k) || (k == l && u == out[l][i])
  {
    assert out[l][..i + 1] == out[l][..i] + [out[l][i]];
  }

  lemma DisconnectNode(nodes: Nodes, x: nat, out: seq<seq<nat>>, l: nat, i: nat, u: nat)
    requires l < |out| && i < |out[l]| && u in nodes
    ensures Disconnect(PartlyUnlinked(nodes, x, out, l, i), out[l][i], x, l)[u]
         == PartlyUnlinked(nodes, x, out, l, i + 1)[u]
  {
    var n := nodes[u].neighbors;
    var a := PartLists(n, x, out, l, i, u);
    var b := PartLists(n, x, out, l, i + 1, u);
    forall k | 0 <= k < |n|
      ensures b[k] == if k == l && u == out[l][i] then Without(a[k], x) else a[k]
    {
      ToldNext(out, l, i, u, k);
      if k == l && u == out[l][i] && Told(out, l, i, u, k) {
        WithoutAbsent(Without(n[k], x), x);
      }
    }
    if u == out[l][i] {
      if l < |n| { assert b == a[l := Without(a[l], x)]; } else { assert b == a; }
    } else {
      assert b == a;
    }
  }

  lemma DisconnectNext(nodes: Nodes, x: nat, out: seq<seq<nat>>, l: nat, i: nat)
    requires l < |out| && i < |out[l]|
    ensures Disconnect(PartlyUnlinked(nodes, x, out, l, i), out[l][i], x, l) == PartlyUnlinked(nodes, x, out, l, i + 1)
  {
    var a := Disconnect(PartlyUnlinked(nodes, x, out, l, i), out[l][i], x, l);
    assert a.Keys == nodes.Keys;
    forall u | u in nodes ensures a[u] == PartlyUnlinked(nodes, x, out, l, i + 1)[u] {
      DisconnectNode(nodes, x, out, l, i, u);
    }
  }

  lemma LevelTold(nodes: Nodes, x: nat, out: seq<seq<nat>>, l: nat)
    requires l < |out|
    ensures PartlyUnlinked(nodes, x, out, l, |out[l]|) == PartlyUnlinked(nodes, x, out, l + 1, 0)
  {
    forall u | u in nodes
      ensures PartLists(nodes[u].neighbors, x, out, l, |out[l]|, u)
              == PartLists(nodes[u].neighbors, x, out, l + 1, 0, u)
    {
      assert out[l][..|out[l]|] == out[l];
      assert forall k :: Told(out, l, |out[l]|, u, k) <==> Told(out, l + 1, 0, u, k);
    }
  }

  lemma NobodyTold(nodes: Nodes, x: nat, out: seq<seq<nat>>)
    ensures PartlyUnlinked(nodes, x, out, 0, 0) == nodes
  {
    forall u | u in nodes ensures PartLists(nodes[u].neighbors, x, out, 0, 0, u) == nodes[u].neighbors {
      assert forall k :: !Told(out, 0, 0, u, k);
    }
  }

  lemma EverybodyTold(nodes: Nodes, x: nat)
    requires x in nodes
    ensures PartlyUnlinked(nodes, x, nodes[x].neighbors, |nodes[x].neighbors|, 0) - {x} == Unlinked(nodes, x)
  {
    var out := nodes[x].neighbors;
    forall u | u in nodes && u != x
      ensures PartLists(nodes[u].neighbors, x, out, |out|, 0, u) == UnlinkedLists(nodes, x, u)
    {
    }
  }

  // ---------- searching ----------

  /** A filter counts only when it is present and not empty. */
  predicate Passes(filter: Option<set<nat>>, id: nat) {
    filter.None? || filter.value == {} || id in filter.value
  }

  function SearchK(k: nat, filter: Option<set<nat>>, count: nat): nat {
    if filter.Some? && filter.value != {} then Min(k * 10, count) else k
  }

  function Greater(a: nat, b: nat): nat {
    if a > b then a else b
  }

  function Matching(r: seq<Candidate>, filter: Option<set<nat>>): (s: seq<Candidate>) {
    if r == [] then []
    else
      var s := Matching(r[..|r| - 1], filter);
      if Passes(filter, r[|r| - 1].id) then s + [r[|r| - 1]] else s
  }

  /** What Search returns from an index that has an entry point; a `k` of 0 counts as 1. */
  ghost predicate SearchOutcome(cfg: Config, g: Graph, query: Vector, k: nat, filter: Option<set<nat>>,
                                ep: nat, found: seq<Candidate>, results: seq<Candidate>) {
    && Descended(cfg, g.nodes, query, g.entryPoint, g.maxLevel, 0, ep)
    && LayerResult(Layer(g.nodes, cfg.metric, query, 0), ep,
                   AtLeastOne(Greater(SearchK(k, filter, |g.nodes|), cfg.efSearch)), found)
    && results == var s := Matching(found, filter); if |s| <= AtLeastOne(k) then s else s[..AtLeastOne(k)]
  }

  lemma {:induction false} MatchingPrefix(r: seq<Candidate>, filter: Option<set<nat>>, i: nat)
    requires i <= |r|
    ensures Matching(r[..i], filter) <= Matching(r, filter)
  {
    if i == |r| {
      assert r[..i] == r;
    } else {
      MatchingPrefix(r[..|r| - 1], filter, i);
      assert r[..|r| - 1][..i] == r[..i];
    }
  }
}
