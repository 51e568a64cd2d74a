/** Save and Load of the index object, with the 32-bit offset arithmetic of Save. */
module HnswPersist {
  import opened Wrappers
  import opened Bytes
  import opened Seqs
  import opened LayerSearch
  import opened HnswIndex
  import opened HnswFile

  // ---------- 32-bit arithmetic ----------

  lemma WrapZero()
    ensures Wrap(0) == 0
  {
  }

  lemma WrapAdd(a: nat, b: nat)
    ensures Wrap(Wrap(a) + Wrap(b)) == Wrap(a + b)
  {
  }

  lemma WrapMul(a: nat, b: nat)
    ensures Wrap(a * Wrap(b)) == Wrap(a * b)
  {
    var q := b / LIMIT32;
    assert b == LIMIT32 * q + Wrap(b);
    assert a * b == LIMIT32 * (a * q) + a * Wrap(b);
    DivUnique(a * b, LIMIT32, a * q + a * Wrap(b) / LIMIT32, Wrap(a * Wrap(b)));
  }

  /** A wrapped number is written in the same four bytes. */
  lemma WrapBytes(v: nat)
    ensures LittleEndian(Wrap(v), 4) == LittleEndian(v, 4)
  {
    Widths();
    LowBytes(v, 4);
  }

  lemma {:induction false} LowBytes(v: nat, n: nat)
    ensures LittleEndian(v % Pow256(n), n) == LittleEndian(v, n)
  {
    if n > 0 {
      var p := Pow256(n - 1);
      ModStep(v, p);
      var w := v % Pow256(n);
      assert w == (v / 256 % p) * 256 + v % 256;
      assert w % 256 == v % 256 && w / 256 == v / 256 % p;
      LowBytes(v / 256, n - 1);
    }
  }

  // ---------- Save ----------

  function InsertSorted(ids: seq<nat>, x: nat): seq<nat> {
    if ids == [] then [x]
    else if x < ids[0] then [x] + ids
    else [ids[0]] + InsertSorted(ids[1..], x)
  }

  lemma {:induction false} InsertedSorted(ids: seq<nat>, x: nat)
    requires Increasing(ids) && x !in ids
    ensures Increasing(InsertSorted(ids, x)) && forall y :: y in InsertSorted(ids, x) <==> y in ids || y == x
  {
    if ids != [] && x >= ids[0] {
      var rest := InsertSorted(ids[1..], x);
      InsertedSorted(ids[1..], x);
      forall j | 0 <= j < |rest| ensures ids[0] < rest[j] {
        assert rest[j] in rest;
        if rest[j] in ids[1..] { var k :| 1 <= k < |ids| && ids[k] == rest[j]; }
      }
      assert ids == [ids[0]] + ids[1..];
    }
  }

  /** Collect and sort the node ids. */
  method SortedIds(nodes: Nodes) returns (ids: seq<nat>)
    ensures Enumerates(nodes, ids)
  {
    ids := [];
    var rest := nodes.Keys;
    while rest != {}
      invariant rest <= nodes.Keys && Increasing(ids) && Elems(ids) == nodes.Keys - rest
      decreases rest
    {
      var x :| x in rest;
      assert x !in Elems(ids);
      InsertedSorted(ids, x);
      ghost var before := ids;
      ids := InsertSorted(ids, x);
      assert Elems(ids) == Elems(before) + {x};
      rest := rest - {x};
    }
    assert nodes.Keys - rest == nodes.Keys;
  }

  lemma {:induction false} TotalNext(lists: seq<seq<nat>>, i: nat)
    requires i < |lists|
    ensures Total(lists[..i + 1]) == Total(lists[..i]) + |lists[i]|
    decreases i
  {
    if i > 0 {
      TotalNext(lists[1..], i - 1);
      assert lists[..i + 1][1..] == lists[1..][..i] && lists[..i][1..] == lists[1..][..i - 1];
    } else {
      assert lists[..1][1..] == [];
    }
  }

  lemma SizeNext(lists: seq<seq<nat>>, i: nat)
    requires i < |lists|
    ensures |Cat(Lists(lists)[..i + 1])| == |Cat(Lists(lists)[..i])| + 2 + |lists[i]| * 8
  {
    var p := Lists(lists);
    assert p[..i + 1] == p[..i] + [p[i]];
    CatAppend(p[..i], [p[i]]);
    assert Cat([p[i]]) == p[i] + [];
    CatWidth(IdBytes(lists[i]), 8);
  }

  /** Neighbour count and block size of one node, in 32 bits. */
  method Sizes(lists: seq<seq<nat>>) returns (total: nat, size: nat)
    ensures total == Wrap(Total(lists)) && size == Wrap(|BlockBytes(lists)|)
  {
    total, size := 0, 2;
    for i := 0 to |lists|
      invariant total == Wrap(Total(lists[..i]))
      invariant size == Wrap(2 + |Cat(Lists(lists)[..i])|)
    {
      hide Cat, Total;
      TotalNext(lists, i);
      SizeNext(lists, i);
      WrapAdd(Total(lists[..i]), |lists[i]|);
      WrapAdd(2 + |Cat(Lists(lists)[..i])|, 2 + |lists[i]| * 8);
      total := Wrap(total + Wrap(|lists[i]|));
      size := Wrap(size + Wrap(2 + |lists[i]| * 8));
    }
    assert lists[..|lists|] == lists && Lists(lists)[..|lists|] == Lists(lists);
  }

  lemma BlockNext(nodes: Nodes, ids: seq<nat>, i: nat)
    requires (forall j :: 0 <= j < |ids| ==> ids[j] in nodes) && i < |ids|
    ensures |Cat(Blocks(nodes, ids)[..i + 1])| == |Cat(Blocks(nodes, ids)[..i])| + |BlockBytes(nodes[ids[i]].neighbors)|
  {
    var p := Blocks(nodes, ids);
    assert p[..i + 1] == p[..i] + [p[i]];
    CatAppend(p[..i], [p[i]]);
    assert Cat([p[i]]) == p[i] + [];
  }

  lemma SectionWraps(meta: Meta, count: nat)
    ensures var vectorSize := Wrap(meta.dimensions * 4);
      Wrap(Wrap(64 + Wrap(count * 24)) + Wrap(count * vectorSize)) == Wrap(Section(meta, count))
  {
    WrapMul(count, meta.dimensions * 4);
    WrapAdd(64, count * 24);
    WrapAdd(64 + count * 24, count * (meta.dimensions * 4));
  }

  /** One row of the node table from wrapped offsets. */
  method TableRow(meta: Meta, nodes: Nodes, ids: seq<nat>, i: nat, section: nat, offset: nat)
      returns (row: Bytes, size: nat)
    requires (forall j :: 0 <= j < |ids| ==> ids[j] in nodes) && i < |ids|
    requires section == Wrap(Section(meta, |ids|)) && offset == Wrap(|Cat(Blocks(nodes, ids)[..i])|)
    ensures row == Row(meta, nodes, ids, i) && size == Wrap(|BlockBytes(nodes[ids[i]].neighbors)|)
  {
    hide Cat, Section, BlockBytes, LittleEndian, Total;
    var node := nodes[ids[i]];
    var total;
    total, size := Sizes(node.neighbors);
    var vectorOffset := Wrap(i * Wrap(meta.dimensions * 4));
    WrapMul(i, meta.dimensions * 4);
    WrapBytes(i * (meta.dimensions * 4));
    var position := Wrap(section + offset);
    WrapAdd(Section(meta, |ids|), |Cat(Blocks(nodes, ids)[..i])|);
    WrapBytes(Section(meta, |ids|) + |Cat(Blocks(nodes, ids)[..i])|);
    WrapBytes(Total(node.neighbors));
    row := LittleEndian(ids[i], 8) + LittleEndian(Wrap(node.level), 4) + LittleEndian(vectorOffset, 4)
           + LittleEndian(position, 4) + LittleEndian(total, 4);
  }

  /** The node table, with the running neighbour offset. */
  method Table(meta: Meta, nodes: Nodes, ids: seq<nat>) returns (table: Bytes)
    requires forall j :: 0 <= j < |ids| ==> ids[j] in nodes
    ensures table == Cat(Rows(meta, nodes, ids))
  {
    hide Cat, Row, BlockBytes, Wrap, Section, Blocks;
    var vectorSize := Wrap(meta.dimensions * 4);
    var section := Wrap(Wrap(64 + Wrap(|ids| * 24)) + Wrap(|ids| * vectorSize));
    SectionWraps(meta, |ids|);
    table := [];
    var offset := 0;
    ghost var rows := Rows(meta, nodes, ids);
    EmptyCat(rows[..0]);
    EmptyCat(Blocks(nodes, ids)[..0]);
    assert offset == Wrap(0) by { WrapZero(); }
    for i := 0 to |ids|
      invariant offset == Wrap(|Cat(Blocks(nodes, ids)[..i])|)
      invariant table == Cat(rows[..i])
    {
      var row, size := TableRow(meta, nodes, ids, i, section, offset);
      BlockNext(nodes, ids, i);
      WrapAdd(|Cat(Blocks(nodes, ids)[..i])|, |BlockBytes(nodes[ids[i]].neighbors)|);
      offset := Wrap(offset + size);
      CatNext(rows, i);
      table := table + row;
    }
    assert rows[..|ids|] == rows;
  }

  lemma CatNext(pieces: seq<Bytes>, i: nat)
    requires i < |pieces|
    ensures Cat(pieces[..i + 1]) == Cat(pieces[..i]) + pieces[i]
  {
    assert pieces[..i + 1] == pieces[..i] + [pieces[i]];
    CatAppend(pieces[..i], [pieces[i]]);
    assert Cat([pieces[i]]) == pieces[i] + [];
  }

  /** The vectors, component by component. */
  method Vectors(nodes: Nodes, ids: seq<nat>) returns (out: Bytes)
    requires forall j :: 0 <= j < |ids| ==> ids[j] in nodes
    ensures out == Cat(VectorRows(nodes, ids))
  {
    out := [];
    ghost var rows := VectorRows(nodes, ids);
    for i := 0 to |ids|
      invariant out == Cat(rows[..i])
    {
      hide Cat;
      var v := nodes[ids[i]].vector;
      CatNext(rows, i);
      ghost var start := out;
      EmptyCat(Words(v)[..0]);
      for j := 0 to |v|
        invariant out == start + Cat(Words(v)[..j])
      {
        CatNext(Words(v), j);
        out := out + LittleEndian(v[j], 4);
      }
      assert Words(v)[..|v|] == Words(v);
    }
    assert rows[..|ids|] == rows;
  }

  lemma EmptyCat(pieces: seq<Bytes>)
    requires pieces == []
    ensures Cat(pieces) == []
  {
  }

  /** One neighbour list: its count, then its ids. */
  method ListOut(ids: seq<nat>) returns (out: Bytes)
    ensures out == ListBytes(ids)
  {
    out := LittleEndian(|ids|, 2);
    EmptyCat(IdBytes(ids)[..0]);
    hide Cat, LittleEndian;
    for n := 0 to |ids|
      invariant out == LittleEndian(|ids|, 2) + Cat(IdBytes(ids)[..n])
    {
      CatNext(IdBytes(ids), n);
      out := out + LittleEndian(ids[n], 8);
    }
    assert IdBytes(ids)[..|ids|] == IdBytes(ids);
  }

  /** One node's neighbour block. */
  method Block(lists: seq<seq<nat>>) returns (out: Bytes)
    ensures out == BlockBytes(lists)
  {
    out := LittleEndian(|lists|, 2);
    EmptyCat(Lists(lists)[..0]);
    hide Cat, LittleEndian, ListBytes;
    for l := 0 to |lists|
      invariant out == LittleEndian(|lists|, 2) + Cat(Lists(lists)[..l])
    {
      CatNext(Lists(lists), l);
      var list := ListOut(lists[l]);
      out := out + list;
    }
    assert Lists(lists)[..|lists|] == Lists(lists);
  }

  method AllBlocks(nodes: Nodes, ids: seq<nat>) returns (out: Bytes)
    requires forall j :: 0 <= j < |ids| ==> ids[j] in nodes
    ensures out == Cat(Blocks(nodes, ids))
  {
    out := [];
    ghost var blocks := Blocks(nodes, ids);
    for i := 0 to |ids|
      invariant out == Cat(blocks[..i])
    {
      hide Cat, BlockBytes;
      CatNext(blocks, i);
      var b := Block(nodes[ids[i]].neighbors);
      out := out + b;
    }
    assert blocks[..|ids|] == blocks;
  }

  /** Save: the bytes written; the index is then clean. */
  method Save(index: Index, tag: Tag) returns (file: Bytes, ghost ids: seq<nat>)
    modifies index`dirty
    ensures Enumerates(index.nodes, ids) && forall i :: 0 <= i < |ids| ==> ids[i] in index.nodes
    ensures file == FileBytes(Meta(index.cfg.dimensions, tag, index.cfg.m), index.State(), ids)
    ensures !index.dirty
  {
    var meta := Meta(index.cfg.dimensions, tag, index.cfg.m);
    var sorted := SortedIds(index.nodes);
    ids := sorted;
    EnumeratedIn(index.nodes, ids);
    hide Cat, LittleEndian, Row, Enumerates;
    file := MAGIC + LittleEndian(meta.dimensions, 4) + [TagByte(tag), 0, 0, 0] + LittleEndian(|index.nodes|, 4)
            + LittleEndian(index.entryPoint, 8) + LittleEndian(Wrap(index.maxLevel), 4) + LittleEndian(meta.m, 4)
            + [if index.hasEntry then 1 else 0] + seq(27, _ => 0);
    assert file == Head(meta, index.State());
    var table := Table(meta, index.nodes, sorted);
    var vectors := Vectors(index.nodes, sorted);
    var blocks := AllBlocks(index.nodes, sorted);
    file := file + table + vectors + blocks;
    index.dirty := false;
  }

  // ---------- Load ----------

  /** The ids and levels of the node table. */
  method LoadTable(file: Bytes, count: nat) returns (r: Option<seq<(nat, int)>>)
    ensures r.None? <==> 64 + count * 24 > |file|
    ensures r.Some? ==> |r.value| == count && forall i :: 0 <= i < count ==>
            r.value[i] == (RowId(file, i), RowLevel(file, i))
  {
    var entries: seq<(nat, int)> := [];
    var pos := 64;
    for i := 0 to count
      invariant pos == 64 + i * 24 && |entries| == i
      invariant i > 0 ==> pos <= |file|
      invariant forall j :: 0 <= j < i ==> entries[j] == (RowId(file, j), RowLevel(file, j))
    {
      if pos + 24 > |file| {
        MulLe(i + 1, count, 24);
        return None;
      }
      entries := entries + [(Id(file, pos), Signed(Word(file, pos + 8)))];
      pos := pos + 24;
    }
    if pos > |file| { return None; }
    return Some(entries);
  }

  /** One vector, component by component. */
  method LoadVector(file: Bytes, pos: nat, dimensions: nat) returns (v: Vector)
    requires pos + dimensions * 4 <= |file|
    ensures v == VectorAt(file, pos, dimensions)
  {
    v := [];
    for j := 0 to dimensions
      invariant v == VectorAt(file, pos, dimensions)[..j]
    {
      v := v + [Word(file, pos + j * 4)];
    }
  }

  method LoadVectors(file: Bytes, dimensions: nat, count: nat) returns (r: Option<seq<Vector>>)
    requires 64 + count * 24 <= |file|
    ensures r.None? <==> 64 + count * 24 + count * (dimensions * 4) > |file|
    ensures r.Some? ==> |r.value| == count && forall i :: 0 <= i < count ==>
              RowsFit'(i, count, dimensions * 4)
                  && r.value[i] == VectorAt(file, VectorPos(dimensions, count, i), dimensions)
  {
    var w, start := dimensions * 4, 64 + count * 24;
    var vectors: seq<Vector> := [];
    for i := 0 to count
      invariant |vectors| == i && start + i * w <= |file|
      invariant forall j :: 0 <= j < i ==>
        start + j * w + w <= |file| && vectors[j] == VectorAt(file, start + j * w, dimensions)
    {
      if start + i * w + w > |file| {
        RowsFit(i, count, w);
        return None;
      }
      var v := LoadVector(file, start + i * w, dimensions);
      vectors := vectors + [v];
      assert (i + 1) * w == i * w + w;
    }
    forall i | 0 <= i < count ensures RowsFit'(i, count, w) { RowsFit(i, count, w); }
    return Some(vectors);
  }

  ghost predicate RowsFit'(i: nat, count: nat, w: nat) {
    i * w + w <= count * w
  }

  method LoadList(file: Bytes, pos: nat) returns (r: Option<(seq<nat>, nat)>)
    ensures r == ReadList(file, pos)
  {
    if pos + 2 > |file| { return None; }
    var count := FromLittleEndian(file[pos..pos + 2]);
    ghost var all := seq(count, j requires 0 <= j < count => Id(file, pos + 2 + j * 8));
    var ids: seq<nat> := [];
    for n := 0 to count
      invariant ids == all[..n] && (n > 0 ==> pos + 2 + n * 8 <= |file|)
    {
      if pos + 2 + n * 8 + 8 > |file| { return None; }
      ids := ids + [Id(file, pos + 2 + n * 8)];
    }
    assert all[..count] == all;
    return Some((ids, pos + 2 + count * 8));
  }

  function Before(done: seq<seq<nat>>, rest: Option<(seq<seq<nat>>, nat)>): Option<(seq<seq<nat>>, nat)> {
    match rest case None => None case Some((lists, end)) => Some((done + lists, end))
  }

  lemma BeforeNext(file: Bytes, done: seq<seq<nat>>, pos: nat, count: nat)
    requires count > 0
    ensures match ReadList(file, pos)
      case None => Before(done, ReadLists(file, pos, count)) == None
      case Some((ids, next)) =>
        Before(done, ReadLists(file, pos, count)) == Before(done + [ids], ReadLists(file, next, count - 1))
  {
    hide ReadList;
    match ReadList(file, pos)
    case None =>
    case Some((ids, next)) =>
      match ReadLists(file, next, count - 1)
      case None =>
      case Some((rest, end)) => assert done + ([ids] + rest) == done + [ids] + rest;
  }

  method LoadBlock(file: Bytes, pos: nat) returns (r: Option<(seq<seq<nat>>, nat)>)
    ensures r == ReadBlock(file, pos)
  {
    if pos + 2 > |file| { return None; }
    var count := FromLittleEndian(file[pos..pos + 2]);
    var lists: seq<seq<nat>>, at: nat := [], pos + 2;
    assert forall rest: seq<seq<nat>> :: [] + rest == rest;
    for l := 0 to count
      invariant ReadBlock(file, pos) == Before(lists, ReadLists(file, at, count - l))
    {
      hide ReadList, Before, ReadLists, ReadBlock;
      BeforeNext(file, lists, at, count - l);
      var list := LoadList(file, at);
      if list.None? { return None; }
      lists, at := lists + [list.value.0], list.value.1;
    }
    assert lists + [] == lists;
    return Some((lists, at));
  }

  lemma {:induction false} BlocksPrefix(file: Bytes, pos: nat, count: nat, lists: seq<seq<seq<nat>>>, at: nat, n: nat)
    requires n < count && BlocksUpTo(file, pos, lists, n, at)
    ensures ReadBlock(file, at).None? ==> ReadBlocks(file, pos, count).None?
    decreases n
  {
    if n > 0 {
      var (first, next) := ReadBlock(file, pos).value;
      BlocksPrefix(file, next, count - 1, lists[1..], at, n - 1);
    }
  }

  /** The first `n` blocks from `pos` are `lists` and end at `at`. */
  ghost predicate BlocksUpTo(file: Bytes, pos: nat, lists: seq<seq<seq<nat>>>, n: nat, at: nat)
    decreases n
  {
    && |lists| == n
    && if n == 0 then at == pos
       else match ReadBlock(file, pos)
         case None => false
         case Some((first, next)) => lists[0] == first && BlocksUpTo(file, next, lists[1..], n - 1, at)
  }

  lemma {:induction false} BlocksExtend(file: Bytes, pos: nat, lists: seq<seq<seq<nat>>>, n: nat, at: nat,
                                        block: seq<seq<nat>>, next: nat)
    requires BlocksUpTo(file, pos, lists, n, at) && ReadBlock(file, at) == Some((block, next))
    ensures BlocksUpTo(file, pos, lists + [block], n + 1, next)
    decreases n
  {
    hide ReadBlock;
    if n == 0 {
      assert (lists + [block])[1..] == [];
      assert BlocksUpTo(file, next, [], 0, next);
    } else {
      var (first, after) := ReadBlock(file, pos).value;
      BlocksExtend(file, after, lists[1..], n - 1, at, block, next);
      assert (lists + [block])[1..] == lists[1..] + [block];
    }
  }

  lemma {:induction false} BlocksAll(file: Bytes, pos: nat, lists: seq<seq<seq<nat>>>, n: nat, at: nat)
    requires BlocksUpTo(file, pos, lists, n, at)
    ensures ReadBlocks(file, pos, n) == Some(lists)
    decreases n
  {
    hide ReadBlock;
    if n > 0 {
      var (first, next) := ReadBlock(file, pos).value;
      BlocksAll(file, next, lists[1..], n - 1, at);
      assert [lists[0]] + lists[1..] == lists;
    }
  }

  /** All neighbour blocks. */
  method LoadBlocks(file: Bytes, pos: nat, count: nat) returns (r: Option<seq<seq<seq<nat>>>>)
    ensures r == ReadBlocks(file, pos, count)
  {
    var lists: seq<seq<seq<nat>>>, at := [], pos;
    assert BlocksUpTo(file, pos, lists, 0, at);
    for i := 0 to count
      invariant BlocksUpTo(file, pos, lists, i, at)
    {
      hide BlocksUpTo, ReadBlocks, ReadBlock;
      var b := LoadBlock(file, at);
      if b.None? {
        BlocksPrefix(file, pos, count, lists, at, i);
        return None;
      }
      BlocksExtend(file, pos, lists, i, at, b.value.0, b.value.1);
      lists, at := lists + [b.value.0], b.value.1;
    }
    BlocksAll(file, pos, lists, count, at);
    return Some(lists);
  }

  /** Build the node map from the three sections. */
  method BuildNodes(file: Bytes, dimensions: nat, count: nat, entries: seq<(nat, int)>, vectors: seq<Vector>,
                    lists: seq<seq<seq<nat>>>)
    returns (nodes: Nodes)
    requires |entries| == |vectors| == |lists| == count && 64 + count * 24 + count * (dimensions * 4) <= |file|
    requires forall i :: 0 <= i < count ==> entries[i] == (RowId(file, i), RowLevel(file, i))
    requires forall i :: 0 <= i < count ==>
      RowsFit'(i, count, dimensions * 4) && vectors[i] == VectorAt(file, VectorPos(dimensions, count, i), dimensions)
    ensures nodes == Assemble(file, dimensions, count, lists, count)
  {
    nodes := map[];
    for i := 0 to count
      invariant nodes == Assemble(file, dimensions, count, lists, i)
    {
      hide RowId, RowLevel, VectorAt;
      assert NodeAt(file, dimensions, count, lists, i) == Node(vectors[i], entries[i].1, lists[i]);
      nodes := nodes[entries[i].0 := Node(vectors[i], entries[i].1, lists[i])];
    }
  }

  /** The nodes of a file whose header is in order. */
  method LoadNodes(f: Bytes, meta: Meta, count: nat) returns (r: Option<Nodes>)
    requires |f| >= 64
    ensures Section(meta, count) > |f| ==> r == None
    ensures Section(meta, count) <= |f| ==>
      match ReadBlocks(f, Section(meta, count), count)
      case None => r == None
      case Some(lists) => |lists| == count && r == Some(Assemble(f, meta.dimensions, count, lists, count))
  {
    hide Assemble, ReadBlocks, RowId, RowLevel, VectorAt;
    var entries := LoadTable(f, count);
    if entries.None? { assert count * (meta.dimensions * 4) >= 0; return None; }
    var vectors := LoadVectors(f, meta.dimensions, count);
    if vectors.None? { return None; }
    var lists := LoadBlocks(f, Section(meta, count), count);
    if lists.None? { return None; }
    BlocksCount(f, Section(meta, count), count);
    var nodes := BuildNodes(f, meta.dimensions, count, entries.value, vectors.value, lists.value);
    return Some(nodes);
  }

  /** Load; a missing file or a bad one leaves the index as it was. */
  method Load(index: Index, file: Option<Bytes>, tag: Tag) returns (ok: bool)
    modifies index`nodes, index`entryPoint, index`hasEntry, index`maxLevel, index`dirty
    ensures file.None? ==> ok && index.State() == old(index.State()) && index.dirty == old(index.dirty)
    ensures file.Some? ==>
      match LoadFile(file.value, Meta(index.cfg.dimensions, tag, index.cfg.m))
      case None => !ok && index.State() == old(index.State()) && index.dirty == old(index.dirty)
      case Some(g) => ok && index.State() == g && !index.dirty
  {
    if file.None? { return true; }
    var f, meta := file.value, Meta(index.cfg.dimensions, tag, index.cfg.m);
    if |f| < 64 || f[..8] != MAGIC { return false; }
    hide Assemble, ReadBlocks, FromLittleEndian, Section;
    var dimensions, count := FromLittleEndian(f[8..12]), FromLittleEndian(f[16..20]);
    if dimensions != meta.dimensions || ByteTag(f[12]) != tag { return false; }
    var nodes := LoadNodes(f, meta, count);
    if nodes.None? { return false; }
    index.nodes := nodes.value;
    index.entryPoint := FromLittleEndian(f[20..28]);
    index.hasEntry := f[36] == 1;
    index.maxLevel := FromLittleEndian(f[28..32]);
    index.dirty := false;
    return true;
  }
}
