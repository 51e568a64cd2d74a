/** Consistency check and repair between the graph and the document map. */
module Repair {
  import opened Wrappers
  import opened Seqs
  import opened LayerSearch
  import opened HnswGraph
  import opened HnswFile
  import opened HnswPersist
  import opened Bytes
  import opened CollectionModel
  import Collection

  datatype Report = Report(totalVectors: nat, orphanIds: seq<nat>, missingIds: seq<nat>)

  /** No list is longer than 2M. */
  ghost predicate Bounded(nodes: Nodes, m: nat) {
    forall u, l :: u in nodes && 0 <= l < |nodes[u].neighbors| ==> |nodes[u].neighbors[l]| <= 2 * m
  }

  /** The basic invariants, which do not depend on how ids were chosen. */
  ghost predicate Basic(g: Graph, m: nat) {
    EntryInv(g) && Bounded(g.nodes, m)
  }

  predicate SameNode(a: Node, b: Node) {
    a.vector == b.vector && a.level == b.level
  }

  lemma DeleteKeepsBasic(g: Graph, x: nat, g': Graph, m: nat)
    requires Basic(g, m) && DeleteStep(g, x, g')
    ensures Basic(g', m) && g'.nodes.Keys == g.nodes.Keys - {x}
    ensures forall u :: u in g'.nodes ==> SameNode(g.nodes[u], g'.nodes[u])
  {
    if x in g.nodes {
      forall u, l | u in g'.nodes && 0 <= l < |g'.nodes[u].neighbors| ensures |g'.nodes[u].neighbors[l]| <= 2 * m {
        assert |g.nodes[u].neighbors[l]| <= 2 * m;
      }
      if g.entryPoint != x {
        assert g.entryPoint in g'.nodes;
        assert g'.nodes != map[];
      }
    }
  }

  lemma {:induction false} DeletesKeepBasic(g: Graph, ids: seq<nat>, g': Graph, m: nat)
    requires Basic(g, m) && DeletedAll(g, ids, g')
    ensures Basic(g', m) && g'.nodes.Keys == g.nodes.Keys - Elems(ids)
    ensures forall u :: u in g'.nodes ==> SameNode(g.nodes[u], g'.nodes[u])
  {
    if ids == [] {
      assert Elems(ids) == {};
    } else {
      hide Basic, DeleteStep;
      var front, last := ids[..|ids| - 1], ids[|ids| - 1];
      var g1 :| DeletedAll(g, front, g1) && DeleteStep(g1, last, g');
      DeletesKeepBasic(g, front, g1, m);
      DeleteKeepsBasic(g1, last, g', m);
      assert ids == front + [last];
      assert Elems(ids) == Elems(front) + {last};
      forall u | u in g'.nodes ensures SameNode(g.nodes[u], g'.nodes[u]) { assert u in g1.nodes.Keys; }
    }
  }

  /** List a set in any order. */
  method Listing(s: set<nat>) returns (r: seq<nat>)
    ensures NoDup(r) && Elems(r) == s
  {
    r := [];
    var rest := s;
    while rest != {}
      invariant rest <= s && NoDup(r) && Elems(r) == s - rest
      decreases rest
    {
      var x :| x in rest;
      assert x !in Elems(r);
      assert Elems(r + [x]) == Elems(r) + {x};
      r := r + [x];
      rest := rest - {x};
    }
  }

  /** CheckConsistency: exactly the graph ids without a location, and the locations without a node. */
  method CheckConsistency(coll: Collection.Collection) returns (report: Report)
    ensures report.totalVectors == |coll.docMap|
    ensures NoDup(report.orphanIds) && Elems(report.orphanIds) == coll.hnsw.nodes.Keys - coll.docMap.Keys
    ensures NoDup(report.missingIds) && Elems(report.missingIds) == coll.docMap.Keys - coll.hnsw.nodes.Keys
  {
    var docMapIds := coll.docMap.Keys;
    var orphans: seq<nat> := [];
    var rest := coll.hnsw.nodes.Keys;
    while rest != {}
      invariant rest <= coll.hnsw.nodes.Keys && NoDup(orphans)
      invariant Elems(orphans) == (coll.hnsw.nodes.Keys - rest) - coll.docMap.Keys
      invariant docMapIds == coll.docMap.Keys - (coll.hnsw.nodes.Keys - rest)
      decreases rest
    {
      var id :| id in rest;
      assert id !in Elems(orphans);
      assert id in docMapIds <==> id in coll.docMap.Keys;
      if id !in docMapIds {
        assert Elems(orphans + [id]) == Elems(orphans) + {id};
        orphans := orphans + [id];
      }
      docMapIds := docMapIds - {id};
      rest := rest - {id};
    }
    assert coll.hnsw.nodes.Keys - rest == coll.hnsw.nodes.Keys;
    var missing := Listing(docMapIds);
    return Report(|coll.docMap|, orphans, missing);
  }

  /** RepairOrphans: the graph keeps exactly the nodes that have a location, vectors and levels
      unchanged, with a live entry point of the greatest level and bounded lists. If there was an
      orphan the repaired graph is saved, otherwise nothing happens. */
  method RepairOrphans(coll: Collection.Collection, tag: Tag) returns (saved: Option<Bytes>, ghost ids: seq<nat>)
    requires Basic(coll.hnsw.State(), coll.hnsw.cfg.m)
    modifies coll.hnsw
    ensures Basic(coll.hnsw.State(), coll.hnsw.cfg.m)
    ensures coll.hnsw.nodes.Keys == old(coll.hnsw.nodes.Keys) * coll.docMap.Keys
    ensures forall u :: u in coll.hnsw.nodes ==>
              u in old(coll.hnsw.nodes) && SameNode(old(coll.hnsw.nodes)[u], coll.hnsw.nodes[u])
    ensures saved.None? <==> old(coll.hnsw.nodes.Keys) <= coll.docMap.Keys
    ensures saved.None? ==> coll.hnsw.State() == old(coll.hnsw.State()) && coll.hnsw.dirty == old(coll.hnsw.dirty)
    ensures saved.Some? ==>
      && Enumerates(coll.hnsw.nodes, ids) && (forall i :: 0 <= i < |ids| ==> ids[i] in coll.hnsw.nodes)
      && saved.value == FileBytes(Meta(coll.hnsw.cfg.dimensions, tag, coll.hnsw.cfg.m), coll.hnsw.State(), ids)
      && !coll.hnsw.dirty
  {
    var report := CheckConsistency(coll);
    ids := [];
    NothingToRepair(report.orphanIds, coll.hnsw.nodes.Keys, coll.docMap.Keys);
    if |report.orphanIds| == 0 { return None, ids; }
    DeleteOrphans(coll, report.orphanIds);
    hide Basic, FileBytes, Enumerates;
    var file;
    file, ids := Save(coll.hnsw, tag);
    return Some(file), ids;
  }

  lemma NothingToRepair(orphans: seq<nat>, nodes: set<nat>, located: set<nat>)
    requires Elems(orphans) == nodes - located
    ensures |orphans| == 0 <==> nodes <= located
    ensures |orphans| == 0 ==> nodes * located == nodes
  {
    if |orphans| > 0 { assert orphans[0] in Elems(orphans); }
    if |orphans| == 0 {
      assert Elems(orphans) == {};
      forall u | u in nodes ensures u in located { assert u !in nodes - located; }
    }
  }

  /** The deletion loop of RepairOrphans. */
  method DeleteOrphans(coll: Collection.Collection, orphans: seq<nat>)
    requires Basic(coll.hnsw.State(), coll.hnsw.cfg.m)
    requires Elems(orphans) == coll.hnsw.nodes.Keys - coll.docMap.Keys
    modifies coll.hnsw
    ensures Basic(coll.hnsw.State(), coll.hnsw.cfg.m)
    ensures coll.hnsw.nodes.Keys == old(coll.hnsw.nodes.Keys) * coll.docMap.Keys
    ensures forall u :: u in coll.hnsw.nodes ==>
              u in old(coll.hnsw.nodes) && SameNode(old(coll.hnsw.nodes)[u], coll.hnsw.nodes[u])
  {
    hide Basic, DeleteStep, SameNode;
    ghost var g := coll.hnsw.State();
    for i := 0 to |orphans|
      invariant DeletedAll(g, orphans[..i], coll.hnsw.State())
    {
      ghost var g1 := coll.hnsw.State();
      var _ := coll.hnsw.Delete(orphans[i]);
      assert orphans[..i + 1][..i] == orphans[..i];
      assert DeletedAll(g, orphans[..i], g1);
    }
    assert orphans[..|orphans|] == orphans;
    DeletesKeepBasic(g, orphans, coll.hnsw.State(), coll.hnsw.cfg.m);
    assert g.nodes.Keys - Elems(orphans) == g.nodes.Keys * coll.docMap.Keys;
    forall u | u in coll.hnsw.nodes ensures u in g.nodes { assert u in coll.hnsw.State().nodes.Keys; }
  }
}
