/** The index object: the methods of HNSWWrapper, each proved against the graph operations. */
module HnswIndex {
  import opened Wrappers
  import opened Heap
  import opened LayerSearch
  import opened HnswGraph
  import opened HnswOps
  import HnswExact

  class Index {
    var nodes: Nodes
    var entryPoint: nat
    var hasEntry: bool
    var maxLevel: int
    var dirty: bool
    const cfg: Config

    constructor (cfg: Config)
      ensures this.cfg == cfg && State() == EMPTY && !dirty
    {
      this.cfg := cfg;
      nodes, entryPoint, hasEntry, maxLevel, dirty := map[], 0, false, 0, false;
    }

    ghost function State(): Graph
      reads this
    {
      Graph(nodes, entryPoint, hasEntry, maxLevel)
    }

    ghost predicate EntryLive()
      reads this
    {
      hasEntry ==> entryPoint in nodes
    }

    // ---------- insertion ----------

    /** pruneConnections. */
    method PruneConnections(nodeId: nat, level: nat)
      modifies `nodes
      ensures nodes == if nodeId in old(nodes) && level < |old(nodes)[nodeId].neighbors|
                       then SetLinks(old(nodes), nodeId, level,
                                     Prune(old(nodes), old(nodes)[nodeId].neighbors[level], cfg.m))
                       else old(nodes)
    {
      if nodeId !in nodes || level >= |nodes[nodeId].neighbors| { return; }
      var node := nodes[nodeId];
      var links := node.neighbors[level];
      var candidates: seq<Candidate> := [];
      assert Ids(candidates) == [] == LiveOnly(nodes, links[..0]);
      hide LiveOnly, Ids, SetLinks;
      for i := 0 to |links|
        invariant nodes == old(nodes) && Ids(candidates) == LiveOnly(nodes, links[..i])
      {
        LiveNext(nodes, links, i);
        if links[i] in nodes {
          var c := Candidate(links[i], cfg.metric(node.vector, nodes[links[i]].vector));
          IdsNext(candidates, c);
          candidates := candidates + [c];
        }
      }
      assert links[..|links|] == links;
      var selected := SelectNeighbors(candidates, cfg.m);
      nodes := SetLinks(nodes, nodeId, level, Ids(selected));
    }

    /** addConnection. */
    method AddConnection(sourceId: nat, targetId: nat, level: nat)
      modifies `nodes
      ensures nodes == Connect(old(nodes), sourceId, targetId, level, cfg.m)
    {
      if sourceId !in nodes || level >= |nodes[sourceId].neighbors| { return; }
      var links := nodes[sourceId].neighbors[level];
      for i := 0 to |links|
        invariant targetId !in links[..i]
      {
        if links[i] == targetId {
          SetLinksSame(nodes, sourceId, level);
          return;
        }
      }
      nodes := SetLinks(nodes, sourceId, level, links + [targetId]);
      if |links| + 1 > 2 * cfg.m {
        PruneSeesSameNodes(old(nodes), nodes, links + [targetId]);
        SetLinksTwice(old(nodes), sourceId, level, links + [targetId], Prune(nodes, links + [targetId], cfg.m));
        PruneConnections(sourceId, level);
      }
    }

    /** Link the new node and the chosen neighbours both ways. */
    method LinkSelected(id: nat, level: nat, selected: seq<Candidate>, neighbors: seq<seq<nat>>)
        returns (neighbors': seq<seq<nat>>)
      requires level < |neighbors|
      modifies `nodes
      ensures neighbors' == neighbors[level := Ids(selected)]
      ensures nodes == ConnectAll(old(nodes), Ids(selected), id, level, cfg.m)
    {
      var sel := Ids(selected);
      neighbors' := neighbors[level := []];
      for i := 0 to |selected|
        invariant |neighbors'| == |neighbors| && neighbors' == neighbors[level := sel[..i]]
        invariant nodes == ConnectAll(old(nodes), sel[..i], id, level, cfg.m)
      {
        hide Connect;
        assert sel[..i + 1] == sel[..i] + [sel[i]];
        assert sel[..i + 1][..i] == sel[..i];
        neighbors' := neighbors'[level := neighbors'[level] + [selected[i].id]];
        AddConnection(selected[i].id, id, level);
      }
      assert sel[..|sel|] == sel;
    }

    /** One level of an insertion: search, choose neighbours, link both ways. */
    method LinkLevel(id: nat, vector: Vector, level: nat, neighbors: seq<seq<nat>>, ep: nat)
      returns (neighbors': seq<seq<nat>>, ep': nat, ghost r: seq<Candidate>)
      requires ep in nodes && level < |neighbors|
      modifies `nodes
      ensures LevelStep(cfg, id, vector, Draft(old(nodes), neighbors, ep), r, level, Draft(nodes, neighbors', ep'))
      ensures ep' in nodes && nodes.Keys == old(nodes).Keys
    {
      var found := SearchLayer(nodes, cfg.metric, vector, ep, cfg.efConstruction, level);
      NearerThanEntry(Layer(nodes, cfg.metric, vector, level), ep, AtLeastOne(cfg.efConstruction), found);
      hide LayerResult, ConnectAll;
      r := found;
      var selected := SelectNeighbors(found, cfg.m);
      neighbors' := LinkSelected(id, level, selected, neighbors);
      ConnectAllShape(old(nodes), Ids(selected), id, level, cfg.m);
      ep' := found[0].id;
    }

    /** The greedy descent of addUnlocked and Search: one nearest node per level above `level`. */
    method Descend(query: Vector, level: nat) returns (ep: nat)
      ensures entryPoint !in nodes ==> ep == entryPoint
      ensures entryPoint in nodes ==> ep in nodes && Descended(cfg, nodes, query, entryPoint, maxLevel, level, ep)
    {
      hide LayerResult;
      ep := entryPoint;
      var l := maxLevel;
      while l > level
        invariant l <= maxLevel && (entryPoint !in nodes ==> ep == entryPoint)
        invariant entryPoint in nodes ==>
                  && ep in nodes
                  && Descended(cfg, nodes, query, entryPoint, maxLevel, if l < level then level else l, ep)
      {
        var r := SearchLayer(nodes, cfg.metric, query, ep, 1, l);
        if ep in nodes { NearerThanEntry(Layer(nodes, cfg.metric, query, l), ep, 1, r); }
        if |r| > 0 {
          assert DescendStep(cfg, nodes, query, l - 1, ep, r, r[0].id);
          ep := r[0].id;
        }
        l := l - 1;
      }
    }

    /** addUnlocked, with the level drawn by randomLevel given. */
    method Add(id: nat, vector: Vector, level: nat) returns (ok: bool)
      requires EntryLive()
      modifies `nodes, `entryPoint, `hasEntry, `maxLevel, `dirty
      ensures ok <==> |vector| == cfg.dimensions && id !in old(nodes)
      ensures AddStep(cfg, old(State()), id, vector, level, State())
      ensures EntryLive() && (ok ==> dirty) && (!ok ==> dirty == old(dirty))
    {
      if |vector| != cfg.dimensions || id in nodes { return false; }
      if !hasEntry {
        nodes := nodes[id := Node(vector, level, NoLinks(level))];
        entryPoint, hasEntry, maxLevel, dirty := id, true, level, true;
        return true;
      }
      ghost var g := State();
      var ep0 := Descend(vector, level);
      var neighbors, d := InsertLevels(id, vector, level, ep0);
      nodes := nodes[id := Node(vector, level, neighbors)];
      dirty := true;
      if level > maxLevel {
        maxLevel, entryPoint := level, id;
      }
      return true;
    }

    /** The insertion loop from the top shared level down to level 0. */
    method InsertLevels(id: nat, vector: Vector, level: nat, ep0: nat)
        returns (neighbors: seq<seq<nat>>, ghost d: Draft)
      requires hasEntry && ep0 in nodes
      requires Descended(cfg, nodes, vector, entryPoint, maxLevel, level, ep0)
      modifies `nodes
      ensures nodes.Keys == old(nodes).Keys
      ensures LinkedInto(cfg, old(State()), id, vector, level, ep0, d) && d.nodes == nodes && d.neighbors == neighbors
    {
      hide LevelStep, Descended, Inserted;
      var top := Min(level, maxLevel);
      var l, ep := if top < 0 then 0 else top + 1, ep0;
      neighbors := NoLinks(level);
      ghost var d0 := Draft(nodes, neighbors, ep0);
      d := d0;
      NothingInserted(cfg, id, vector, d0, top, l);
      while l > 0
        invariant 0 <= l && (l == 0 || l <= top + 1) && |neighbors| == level + 1
        invariant ep in nodes && nodes.Keys == old(nodes).Keys
        invariant d == Draft(nodes, neighbors, ep) && Inserted(cfg, id, vector, d0, top, l, d)
      {
        l := l - 1;
        ghost var r;
        neighbors, ep, r := LinkLevel(id, vector, l, neighbors, ep);
        InsertedNext(cfg, id, vector, d0, top, l, d, r, Draft(nodes, neighbors, ep));
        d := Draft(nodes, neighbors, ep);
      }
    }

    /** BatchAdd. */
    method BatchAdd(items: seq<Item>)
      requires EntryLive()
      modifies `nodes, `entryPoint, `hasEntry, `maxLevel, `dirty
      ensures Batched(cfg, old(State()), items, State()) && EntryLive()
    {
      for i := 0 to |items|
        invariant Batched(cfg, old(State()), items[..i], State()) && EntryLive()
      {
        hide AddStep;
        ghost var g1 := State();
        var _ := Add(items[i].id, items[i].vector, items[i].level);
        assert items[..i + 1][..i] == items[..i];
        assert Batched(cfg, old(State()), items[..i], g1);
      }
      assert items[..|items|] == items;
    }

    // ---------- deletion ----------

    /** removeConnection. */
    method RemoveConnection(sourceId: nat, targetId: nat, level: nat)
      modifies `nodes
      ensures nodes == Disconnect(old(nodes), sourceId, targetId, level)
    {
      if sourceId !in nodes || level >= |nodes[sourceId].neighbors| { return; }
      var links := nodes[sourceId].neighbors[level];
      var kept: seq<nat> := [];
      for i := 0 to |links|
        invariant kept == Without(links[..i], targetId)
      {
        assert links[..i + 1][..i] == links[..i];
        if links[i] != targetId {
          kept := kept + [links[i]];
        }
      }
      assert links[..|links|] == links;
      nodes := SetLinks(nodes, sourceId, level, kept);
    }

    /** updateEntryPoint: scan the nodes in any order for one of the greatest level. */
    method UpdateEntryPoint()
      modifies `entryPoint, `hasEntry, `maxLevel
      ensures EntryInv(State())
      ensures hasEntry || (entryPoint == old(entryPoint) && maxLevel == 0)
    {
      hasEntry, maxLevel := false, 0;
      var rest := nodes.Keys;
      while rest != {}
        invariant rest <= nodes.Keys
        invariant hasEntry <==> rest != nodes.Keys
        invariant !hasEntry ==> entryPoint == old(entryPoint) && maxLevel == 0
        invariant hasEntry ==> entryPoint in nodes && nodes[entryPoint].level == maxLevel
        invariant forall u :: u in nodes && u !in rest ==> nodes[u].level <= maxLevel
        decreases rest
      {
        var id :| id in rest;
        rest := rest - {id};
        if !hasEntry || nodes[id].level > maxLevel {
          entryPoint, maxLevel, hasEntry := id, nodes[id].level, true;
        }
      }
      assert nodes.Keys == {} <==> nodes == map[];
    }

    /** Tell every node in the lists of `id` to forget it. */
    method Disown(id: nat)
      requires id in nodes
      modifies `nodes
      ensures nodes - {id} == Unlinked(old(nodes), id)
    {
      var out := nodes[id].neighbors;
      NobodyTold(nodes, id, out);
      hide Disconnect, PartlyUnlinked, Unlinked;
      for l := 0 to |out|
        invariant nodes == PartlyUnlinked(old(nodes), id, out, l, 0)
      {
        for i := 0 to |out[l]|
          invariant nodes == PartlyUnlinked(old(nodes), id, out, l, i)
        {
          DisconnectNext(old(nodes), id, out, l, i);
          RemoveConnection(out[l][i], id, l);
        }
        LevelTold(old(nodes), id, out, l);
      }
      EverybodyTold(old(nodes), id);
    }

    method Delete(id: nat) returns (ok: bool)
      modifies `nodes, `entryPoint, `hasEntry, `maxLevel, `dirty
      ensures ok <==> id in old(nodes)
      ensures DeleteStep(old(State()), id, State())
      ensures (ok ==> dirty) && (!ok ==> dirty == old(dirty))
    {
      if id !in nodes { return false; }
      Disown(id);
      nodes := nodes - {id};
      dirty := true;
      if entryPoint == id {
        UpdateEntryPoint();
      }
      return true;
    }

    // ---------- search ----------

    /** Search, for a query of the right dimension on a non-empty index as `SearchOutcome`. */
    method Search(query: Vector, k: nat, filter: Option<set<nat>>)
      returns (r: Outcome<seq<Candidate>>, ghost ep: nat, ghost found: seq<Candidate>)
      ensures |query| != cfg.dimensions ==> r == Err
      ensures |query| == cfg.dimensions && (!hasEntry || entryPoint !in nodes) ==> r == Ok([])
      ensures |query| == cfg.dimensions && hasEntry && entryPoint in nodes ==>
                r.Ok? && SearchOutcome(cfg, State(), query, k, filter, ep, found, r.value)
      ensures r.Ok? && filter.Some? && filter.value != {} ==> forall c :: c in r.value ==> c.id in filter.value
    {
      ep, found := 0, [];
      if |query| != cfg.dimensions { return Err, ep, found; }
      if !hasEntry { return Ok([]), ep, found; }
      var start := Descend(query, 0);
      var searchK := SearchK(k, filter, |nodes|);
      var candidates := SearchLayer(nodes, cfg.metric, query, start, Greater(searchK, cfg.efSearch), 0);
      hide LayerResult, Descended;
      var results := CollectResults(candidates, k, filter);
      if entryPoint in nodes { HnswExact.SoundSearch(cfg, State(), query, k, filter, start, candidates, results); }
      return Ok(results), start, candidates;
    }

    method CollectResults(candidates: seq<Candidate>, k: nat, filter: Option<set<nat>>)
        returns (results: seq<Candidate>)
      ensures results == var s := Matching(candidates, filter); if |s| <= AtLeastOne(k) then s else s[..AtLeastOne(k)]
    {
      results := [];
      for i := 0 to |candidates|
        invariant results == Matching(candidates[..i], filter) && |results| < AtLeastOne(k)
      {
        assert candidates[..i + 1][..i] == candidates[..i];
        if Passes(filter, candidates[i].id) {
          results := results + [candidates[i]];
          if |results| >= k {
            MatchingPrefix(candidates, filter, i + 1);
            return;
          }
        }
      }
      assert candidates[..|candidates|] == candidates;
    }
  }
}
