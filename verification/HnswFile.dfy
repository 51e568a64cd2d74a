/** The binary file of the index: Save writes a header, a node table, the vectors and the neighbour
    lists; Load reads them back in order. */
module HnswFile {
  import opened Wrappers
  import opened Bytes
  import opened Seqs
  import opened LayerSearch
  import opened HnswGraph

  datatype Tag = L2 | Cosine | InnerProduct

  /** What Save and Load know besides the graph. */
  datatype Meta = Meta(dimensions: nat, tag: Tag, m: nat)

  const MAGIC: Bytes := [72, 78, 83, 87, 86, 48, 48, 49] // "HNSWV001"
  const LIMIT31 := 0x8000_0000
  const LIMIT16 := 0x1_0000

  function TagByte(t: Tag): Byte {
    match t case Cosine => 1 case InnerProduct => 2 case L2 => 0
  }

  function ByteTag(b: Byte): Tag {
    if b == 1 then Cosine else if b == 2 then InnerProduct else L2
  }

  // ---------- 32-bit integers ----------

  /** Conversion to 32 bits. */
  function Wrap(n: int): (r: nat)
    ensures r < LIMIT32
  {
    n % LIMIT32
  }

  /** Reading 32 bits as a signed number. */
  function Signed(w: nat): (n: int)
    requires w < LIMIT32
    ensures -LIMIT31 <= n < LIMIT31 && Wrap(n) == w
  {
    if w < LIMIT31 then w else w - LIMIT32
  }

  lemma SignedWrap(n: int)
    ensures Signed(Wrap(n)) == n <==> -LIMIT31 <= n < LIMIT31
  {
  }

  // ---------- pieces one after another ----------

  function Cat(pieces: seq<Bytes>): Bytes {
    if pieces == [] then [] else pieces[0] + Cat(pieces[1..])
  }

  lemma {:induction false} CatAppend(a: seq<Bytes>, b: seq<Bytes>)
    ensures Cat(a + b) == Cat(a) + Cat(b)
  {
    if a == [] {
      assert a + b == b;
    } else {
      CatAppend(a[1..], b);
      assert (a + b)[1..] == a[1..] + b;
      assert Cat(a + b) == a[0] + (Cat(a[1..]) + Cat(b));
    }
  }

  /** Where piece `i` stands. */
  lemma CatAt(pieces: seq<Bytes>, i: nat)
    requires i < |pieces|
    ensures var at := |Cat(pieces[..i])|;
      at + |pieces[i]| <= |Cat(pieces)| && Cat(pieces)[at..at + |pieces[i]|] == pieces[i]
  {
    var a, b := pieces[..i], pieces[i + 1..];
    assert pieces == a + ([pieces[i]] + b);
    CatAppend(a, [pieces[i]] + b);
    CatAppend([pieces[i]], b);
    assert Cat([pieces[i]]) == pieces[i] + [];
  }

  ghost predicate Width(pieces: seq<Bytes>, w: nat) {
    forall i :: 0 <= i < |pieces| ==> |pieces[i]| == w
  }

  lemma {:induction false} CatWidth(pieces: seq<Bytes>, w: nat)
    requires Width(pieces, w)
    ensures |Cat(pieces)| == |pieces| * w
  {
    if pieces != [] {
      CatWidth(pieces[1..], w);
      assert (|pieces| - 1) * w + w == |pieces| * w;
    }
  }

  /** In a run of pieces of one width, piece `i` stands at `i` widths. */
  lemma CatRow(pieces: seq<Bytes>, w: nat, i: nat)
    requires Width(pieces, w) && i < |pieces|
    ensures i * w + w <= |Cat(pieces)| && Cat(pieces)[i * w..i * w + w] == pieces[i]
  {
    CatWidth(pieces[..i], w);
    CatAt(pieces, i);
  }

  /** Rows read back from anywhere in a file. */
  lemma RowInFile(pre: Bytes, pieces: seq<Bytes>, post: Bytes, w: nat, i: nat)
    requires Width(pieces, w) && i < |pieces|
    ensures var file := pre + Cat(pieces) + post;
      |pre| + i * w + w <= |file| && file[|pre| + i * w..|pre| + i * w + w] == pieces[i]
  {
    CatRow(pieces, w, i);
    var file, at := pre + Cat(pieces) + post, i * w;
    assert file[|pre| + at..|pre| + at + w] == Cat(pieces)[at..at + w];
  }

  // ---------- writing ----------

  function Words(v: Vector): (r: seq<Bytes>)
    ensures |r| == |v| && Width(r, 4)
  {
    seq(|v|, i requires 0 <= i < |v| => LittleEndian(v[i], 4))
  }

  function IdBytes(ids: seq<nat>): (r: seq<Bytes>)
    ensures |r| == |ids| && Width(r, 8)
  {
    seq(|ids|, i requires 0 <= i < |ids| => LittleEndian(ids[i], 8))
  }

  function ListBytes(ids: seq<nat>): Bytes {
    LittleEndian(|ids|, 2) + Cat(IdBytes(ids))
  }

  function Lists(lists: seq<seq<nat>>): (r: seq<Bytes>)
    ensures |r| == |lists|
  {
    seq(|lists|, i requires 0 <= i < |lists| => ListBytes(lists[i]))
  }

  function BlockBytes(lists: seq<seq<nat>>): Bytes {
    LittleEndian(|lists|, 2) + Cat(Lists(lists))
  }

  /** `ids` lists the nodes in increasing order. */
  ghost predicate Enumerates(nodes: Nodes, ids: seq<nat>) {
    Increasing(ids) && Elems(ids) == nodes.Keys
  }

  function VectorRows(nodes: Nodes, ids: seq<nat>): (r: seq<Bytes>)
    requires forall i :: 0 <= i < |ids| ==> ids[i] in nodes
    ensures |r| == |ids|
  {
    seq(|ids|, i requires 0 <= i < |ids| => Cat(Words(nodes[ids[i]].vector)))
  }

  function Blocks(nodes: Nodes, ids: seq<nat>): (r: seq<Bytes>)
    requires forall i :: 0 <= i < |ids| ==> ids[i] in nodes
    ensures |r| == |ids|
  {
    seq(|ids|, i requires 0 <= i < |ids| => BlockBytes(nodes[ids[i]].neighbors))
  }

  function Total(lists: seq<seq<nat>>): nat {
    if lists == [] then 0 else |lists[0]| + Total(lists[1..])
  }

  /** Where the neighbour section starts. */
  function Section(meta: Meta, count: nat): nat {
    64 + count * 24 + count * (meta.dimensions * 4)
  }

  /** A row of the node table; offsets keep their low 32 bits. */
  function Row(meta: Meta, nodes: Nodes, ids: seq<nat>, i: nat): (r: Bytes)
    requires (forall j :: 0 <= j < |ids| ==> ids[j] in nodes) && i < |ids|
    ensures |r| == 24
  {
    LittleEndian(ids[i], 8) + LittleEndian(Wrap(nodes[ids[i]].level), 4) + LittleEndian(i * (meta.dimensions * 4), 4)
    + LittleEndian(Section(meta, |ids|) + |Cat(Blocks(nodes, ids)[..i])|, 4)
    + LittleEndian(Total(nodes[ids[i]].neighbors), 4)
  }

  function Rows(meta: Meta, nodes: Nodes, ids: seq<nat>): (r: seq<Bytes>)
    requires forall i :: 0 <= i < |ids| ==> ids[i] in nodes
    ensures |r| == |ids| && Width(r, 24)
  {
    seq(|ids|, i requires 0 <= i < |ids| => Row(meta, nodes, ids, i))
  }

  function Head(meta: Meta, g: Graph): (r: Bytes)
    ensures |r| == 64
  {
    MAGIC + LittleEndian(meta.dimensions, 4) + [TagByte(meta.tag), 0, 0, 0] + LittleEndian(|g.nodes|, 4)
    + LittleEndian(g.entryPoint, 8) + LittleEndian(Wrap(g.maxLevel), 4) + LittleEndian(meta.m, 4)
    + [if g.hasEntry then 1 else 0] + seq(27, _ => 0)
  }

  function FileBytes(meta: Meta, g: Graph, ids: seq<nat>): Bytes
    requires forall i :: 0 <= i < |ids| ==> ids[i] in g.nodes
  {
    Head(meta, g) + Cat(Rows(meta, g.nodes, ids)) + Cat(VectorRows(g.nodes, ids)) + Cat(Blocks(g.nodes, ids))
  }

  // ---------- reading ----------

  /** Where the i-th of `count` vectors stands. */
  function VectorPos(dimensions: nat, count: nat, i: nat): nat {
    64 + count * 24 + i * (dimensions * 4)
  }

  function VectorAt(file: Bytes, pos: nat, n: nat): Vector
    requires pos + n * 4 <= |file|
  {
    seq(n, j requires 0 <= j < n => Word(file, pos + j * 4))
  }

  function Word(file: Bytes, pos: nat): Float32 {
    if pos + 4 <= |file| then Widths(); FromLittleEndian(file[pos..pos + 4]) else 0
  }

  function Id(file: Bytes, pos: nat): nat {
    if pos + 8 <= |file| then FromLittleEndian(file[pos..pos + 8]) else 0
  }

  /** One neighbour list: a 16-bit count and that many 64-bit ids. */
  function ReadList(file: Bytes, pos: nat): Option<(seq<nat>, nat)> {
    if pos + 2 > |file| then None
    else
      var n := FromLittleEndian(file[pos..pos + 2]);
      if pos + 2 + n * 8 > |file| then None
      else Some((seq(n, j requires 0 <= j < n => Id(file, pos + 2 + j * 8)), pos + 2 + n * 8))
  }

  function ReadLists(file: Bytes, pos: nat, count: nat): Option<(seq<seq<nat>>, nat)>
    decreases count
  {
    if count == 0 then Some(([], pos))
    else match ReadList(file, pos)
      case None => None
      case Some((ids, next)) =>
        match ReadLists(file, next, count - 1)
        case None => None
        case Some((rest, end)) => Some(([ids] + rest, end))
  }

  function ReadBlock(file: Bytes, pos: nat): Option<(seq<seq<nat>>, nat)> {
    if pos + 2 > |file| then None else ReadLists(file, pos + 2, FromLittleEndian(file[pos..pos + 2]))
  }

  function ReadBlocks(file: Bytes, pos: nat, count: nat): Option<seq<seq<seq<nat>>>>
    decreases count
  {
    if count == 0 then Some([])
    else match ReadBlock(file, pos)
      case None => None
      case Some((lists, next)) =>
        match ReadBlocks(file, next, count - 1)
        case None => None
        case Some(rest) => Some([lists] + rest)
  }

  // ---------- lists read back ----------

  ghost predicate SafeIds(ids: seq<nat>) {
    |ids| < LIMIT16 && forall i :: 0 <= i < |ids| ==> ids[i] < ID_LIMIT
  }

  ghost predicate SafeLists(lists: seq<seq<nat>>) {
    |lists| < LIMIT16 && forall l :: 0 <= l < |lists| ==> SafeIds(lists[l])
  }

  lemma IdAt(pre: Bytes, ids: seq<nat>, post: Bytes, j: nat)
    requires j < |ids| && ids[j] < ID_LIMIT
    ensures Id(pre + Cat(IdBytes(ids)) + post, |pre| + j * 8) == ids[j]
  {
    RowInFile(pre, IdBytes(ids), post, 8, j);
    Widths();
    LittleEndianValue(ids[j], 8);
  }

  lemma ReadListBack(pre: Bytes, ids: seq<nat>, post: Bytes)
    requires SafeIds(ids)
    ensures ReadList(pre + ListBytes(ids) + post, |pre|) == Some((ids, |pre| + |ListBytes(ids)|))
  {
    var head, body := LittleEndian(|ids|, 2), Cat(IdBytes(ids));
    var file := pre + ListBytes(ids) + post;
    assert file == (pre + head) + body + post;
    assert file[|pre|..|pre| + 2] == head;
    Widths();
    LittleEndianValue(|ids|, 2);
    CatWidth(IdBytes(ids), 8);
    forall j | 0 <= j < |ids| ensures Id(file, |pre| + 2 + j * 8) == ids[j] {
      IdAt(pre + head, ids, post, j);
    }
    hide Cat, LittleEndian, Id;
    var got := seq(|ids|, j requires 0 <= j < |ids| => Id(file, |pre| + 2 + j * 8));
    assert got == ids;
  }

  lemma ListsFront(lists: seq<seq<nat>>)
    requires lists != []
    ensures Cat(Lists(lists)) == ListBytes(lists[0]) + Cat(Lists(lists[1..]))
  {
    assert Lists(lists)[1..] == Lists(lists[1..]);
  }

  lemma ReadListsStep(file: Bytes, pos: nat, ids: seq<nat>, next: nat, rest: seq<seq<nat>>, end: nat, count: nat)
    requires count > 0 && ReadList(file, pos) == Some((ids, next))
    requires ReadLists(file, next, count - 1) == Some((rest, end))
    ensures ReadLists(file, pos, count) == Some(([ids] + rest, end))
  {
    hide ReadList;
  }

  lemma Regroup(a: Bytes, b: Bytes, c: Bytes, d: Bytes)
    ensures a + (b + c) + d == a + b + (c + d)
    ensures a + (b + c) + d == (a + b) + c + d
    ensures d == [] ==> a + (b + c) == a + b + c
  {
  }

  lemma NoLists(file: Bytes, pos: nat)
    ensures Cat(Lists([])) == [] && ReadLists(file, pos, 0) == Some(([], pos))
  {
  }

  lemma {:induction false} ReadListsBack(pre: Bytes, lists: seq<seq<nat>>, post: Bytes)
    requires forall l :: 0 <= l < |lists| ==> SafeIds(lists[l])
    ensures ReadLists(pre + Cat(Lists(lists)) + post, |pre|, |lists|) == Some((lists, |pre| + |Cat(Lists(lists))|))
    decreases |lists|
  {
    hide *;
    if lists == [] {
      NoLists(pre + Cat(Lists(lists)) + post, |pre|);
    } else {
      ListsFront(lists);
      var first, rest := ListBytes(lists[0]), Cat(Lists(lists[1..]));
      ReadListBack(pre, lists[0], rest + post);
      ReadListsBack(pre + first, lists[1..], post);
      Regroup(pre, first, rest, post);
      var file := pre + Cat(Lists(lists)) + post;
      ReadListsStep(file, |pre|, lists[0], |pre| + |first|, lists[1..], |pre| + |first| + |rest|, |lists|);
      SplitFirst(lists);
    }
  }

  lemma ReadBlockBack(pre: Bytes, lists: seq<seq<nat>>, post: Bytes)
    requires SafeLists(lists)
    ensures ReadBlock(pre + BlockBytes(lists) + post, |pre|) == Some((lists, |pre| + |BlockBytes(lists)|))
  {
    var head, body := LittleEndian(|lists|, 2), Cat(Lists(lists));
    var file := pre + BlockBytes(lists) + post;
    assert file == (pre + head) + body + post;
    assert file[|pre|..|pre| + 2] == head;
    Widths();
    LittleEndianValue(|lists|, 2);
    ReadListsBack(pre + head, lists, post);
  }

  function ManyBlocks(lists: seq<seq<seq<nat>>>): (r: seq<Bytes>)
    ensures |r| == |lists|
  {
    seq(|lists|, i requires 0 <= i < |lists| => BlockBytes(lists[i]))
  }

  lemma BlocksFront(lists: seq<seq<seq<nat>>>)
    requires lists != []
    ensures Cat(ManyBlocks(lists)) == BlockBytes(lists[0]) + Cat(ManyBlocks(lists[1..]))
  {
    assert ManyBlocks(lists)[1..] == ManyBlocks(lists[1..]);
  }

  lemma ReadBlocksStep(file: Bytes, pos: nat, lists: seq<seq<nat>>, next: nat, rest: seq<seq<seq<nat>>>, count: nat)
    requires count > 0 && ReadBlock(file, pos) == Some((lists, next)) && ReadBlocks(file, next, count - 1) == Some(rest)
    ensures ReadBlocks(file, pos, count) == Some([lists] + rest)
  {
    hide ReadBlock;
  }

  lemma NoBlocks(pre: Bytes)
    ensures ReadBlocks(pre + Cat(ManyBlocks([])), |pre|, 0) == Some([])
  {
  }

  lemma {:induction false} ReadBlocksBack(pre: Bytes, lists: seq<seq<seq<nat>>>)
    requires forall i :: 0 <= i < |lists| ==> SafeLists(lists[i])
    ensures ReadBlocks(pre + Cat(ManyBlocks(lists)), |pre|, |lists|) == Some(lists)
    decreases |lists|
  {
    hide *;
    if lists == [] {
      NoBlocks(pre);
    } else {
      BlocksFront(lists);
      var first, rest := BlockBytes(lists[0]), Cat(ManyBlocks(lists[1..]));
      ReadBlockBack(pre, lists[0], rest);
      ReadBlocksBack(pre + first, lists[1..]);
      Regroup(pre, first, rest, []);
      var file := pre + Cat(ManyBlocks(lists));
      ReadBlocksStep(file, |pre|, lists[0], |pre| + |first|, lists[1..], |lists|);
      SplitFirst(lists);
    }
  }

  // ---------- the whole file read back ----------

  /** The nodes of the first `n` table rows, vectors and blocks. */
  function Assemble(file: Bytes, dimensions: nat, count: nat, lists: seq<seq<seq<nat>>>, n: nat): Nodes
    requires n <= count == |lists| && 64 + count * 24 + count * (dimensions * 4) <= |file|
  {
    if n == 0 then map[]
    else Assemble(file, dimensions, count, lists,
                  n - 1)[RowId(file, n - 1) := NodeAt(file, dimensions, count, lists, n - 1)]
  }

  function RowId(file: Bytes, i: nat): nat {
    Id(file, 64 + i * 24)
  }

  function RowLevel(file: Bytes, i: nat): (level: int)
    ensures -LIMIT31 <= level < LIMIT31
  {
    Signed(Word(file, 64 + i * 24 + 8))
  }

  function NodeAt(file: Bytes, dimensions: nat, count: nat, lists: seq<seq<seq<nat>>>, i: nat): Node
    requires i < count == |lists| && 64 + count * 24 + count * (dimensions * 4) <= |file|
  {
    assert i * (dimensions * 4) + dimensions * 4 <= count * (dimensions * 4) by { RowsFit(i, count, dimensions * 4); }
    Node(VectorAt(file, VectorPos(dimensions, count, i), dimensions), RowLevel(file, i), lists[i])
  }

  lemma RowsFit(i: nat, count: nat, w: nat)
    requires i < count
    ensures i * w + w <= count * w
  {
    assert i * w + w == (i + 1) * w;
    MulLe(i + 1, count, w);
  }

  lemma {:induction false} MulLe(a: nat, b: nat, w: nat)
    requires a <= b
    ensures a * w <= b * w
    decreases b
  {
    if a < b {
      MulLe(a, b - 1, w);
      assert b * w == (b - 1) * w + w;
    }
  }

  /** Load, as a function of the file. The offsets in the table are not used. */
  function LoadFile(file: Bytes, meta: Meta): Option<Graph> {
    if |file| < 64 || file[..8] != MAGIC then None
    else
      var dimensions := FromLittleEndian(file[8..12]);
      var count := FromLittleEndian(file[16..20]);
      if dimensions != meta.dimensions || ByteTag(file[12]) != meta.tag then None
      else if Section(meta, count) > |file| then None
      else match ReadBlocks(file, Section(meta, count), count)
        case None => None
        case Some(lists) =>
          BlocksCount(file, Section(meta, count), count);
          Some(Graph(Assemble(file, meta.dimensions, count, lists, count), FromLittleEndian(file[20..28]),
                     file[36] == 1, FromLittleEndian(file[28..32])))
  }

  lemma {:induction false} BlocksCount(file: Bytes, pos: nat, count: nat)
    requires ReadBlocks(file, pos, count).Some?
    ensures |ReadBlocks(file, pos, count).value| == count
    decreases count
  {
    if count > 0 {
      var (lists, next) := ReadBlock(file, pos).value;
      BlocksCount(file, next, count - 1);
    }
  }

  /** Everything fits its field. */
  ghost predicate FileSafe(meta: Meta, g: Graph) {
    && |g.nodes| < LIMIT32 && meta.dimensions < LIMIT32 && g.entryPoint < ID_LIMIT && 0 <= g.maxLevel < LIMIT32
    && forall u :: u in g.nodes ==>
        u < ID_LIMIT && -LIMIT31 <= g.nodes[u].level < LIMIT31 && |g.nodes[u].vector| == meta.dimensions
            && SafeLists(g.nodes[u].neighbors)
  }

  lemma EnumeratedIn(nodes: Nodes, ids: seq<nat>)
    requires Enumerates(nodes, ids)
    ensures NoDup(ids) && |ids| == |nodes| && forall i :: 0 <= i < |ids| ==> ids[i] in nodes
  {
    forall i | 0 <= i < |ids| ensures ids[i] in nodes { assert ids[i] in Elems(ids); }
    NoDupSize(ids);
    assert |nodes.Keys| == |nodes|;
  }

  lemma HeadSlices(meta: Meta, g: Graph)
    ensures var h := Head(meta, g);
      && h[..8] == MAGIC && h[8..12] == LittleEndian(meta.dimensions, 4) && h[12] == TagByte(meta.tag)
      && h[16..20] == LittleEndian(|g.nodes|, 4) && h[20..28] == LittleEndian(g.entryPoint, 8)
      && h[28..32] == LittleEndian(Wrap(g.maxLevel), 4) && h[32..36] == LittleEndian(meta.m, 4)
      && h[36] == (if g.hasEntry then 1 else 0)
  {
    hide LittleEndian;
    HeadPieces(MAGIC, LittleEndian(meta.dimensions, 4), [TagByte(meta.tag), 0, 0, 0], LittleEndian(|g.nodes|, 4),
               LittleEndian(g.entryPoint, 8), LittleEndian(Wrap(g.maxLevel), 4), LittleEndian(meta.m, 4),
               [if g.hasEntry then 1 else 0], seq(27, _ => 0));
  }

  lemma HeadPieces(a: Bytes, b: Bytes, c: Bytes, d: Bytes, e: Bytes, f: Bytes, m: Bytes, x: Bytes, z: Bytes)
    requires |a| == 8 && |b| == 4 && |c| == 4 && |d| == 4 && |e| == 8 && |f| == 4 && |m| == 4 && |x| == 1
    ensures var h := a + b + c + d + e + f + m + x + z;
      h[..8] == a && h[8..12] == b && h[12] == c[0] && h[16..20] == d && h[20..28] == e && h[28..32] == f
          && h[32..36] == m && h[36] == x[0]
  {
  }

  lemma HeadInFile(h: Bytes, rest: Bytes)
    requires |h| == 64
    ensures var file := h + rest;
      && file[..8] == h[..8] && file[8..12] == h[8..12] && file[12] == h[12] && file[16..20] == h[16..20]
      && file[20..28] == h[20..28] && file[28..32] == h[28..32] && file[32..36] == h[32..36] && file[36] == h[36]
  {
  }

  lemma RowFields(meta: Meta, nodes: Nodes, ids: seq<nat>, i: nat)
    requires (forall j :: 0 <= j < |ids| ==> ids[j] in nodes) && i < |ids|
    ensures Row(meta, nodes, ids, i)[0..8] == LittleEndian(ids[i], 8)
    ensures Row(meta, nodes, ids, i)[8..12] == LittleEndian(Wrap(nodes[ids[i]].level), 4)
    ensures Row(meta, nodes, ids, i)[12..16] == LittleEndian(i * (meta.dimensions * 4), 4)
    ensures Row(meta, nodes, ids, i)[20..24] == LittleEndian(Total(nodes[ids[i]].neighbors), 4)
    ensures Row(meta, nodes, ids, i)[16..20] == LittleEndian(Section(meta, |ids|) + |Cat(Blocks(nodes, ids)[..i])|, 4)
  {
    hide LittleEndian, Cat, Section, Total;
  }

  lemma RowRead(meta: Meta, g: Graph, ids: seq<nat>, i: nat)
    requires (forall j :: 0 <= j < |ids| ==> ids[j] in g.nodes) && i < |ids| && FileSafe(meta, g)
    ensures var file := FileBytes(meta, g, ids);
      RowId(file, i) == ids[i] && RowLevel(file, i) == g.nodes[ids[i]].level
  {
    hide FileBytes, Row, LittleEndian, FromLittleEndian, SafeLists, Section, Cat;
    var file := FileBytes(meta, g, ids);
    RowInTable(meta, g, ids, i);
    RowFields(meta, g.nodes, ids, i);
    Widths();
    LittleEndianValue(ids[i], 8);
    LittleEndianValue(Wrap(g.nodes[ids[i]].level), 4);
    SignedWrap(g.nodes[ids[i]].level);
    var at := 64 + i * 24;
    SliceSlice(file, at, at + 24, 0, 8);
    SliceSlice(file, at, at + 24, 8, 12);
  }

  lemma RowInTable(meta: Meta, g: Graph, ids: seq<nat>, i: nat)
    requires (forall j :: 0 <= j < |ids| ==> ids[j] in g.nodes) && i < |ids|
    ensures var file := FileBytes(meta, g, ids);
      64 + i * 24 + 24 <= |file| && file[64 + i * 24..64 + i * 24 + 24] == Row(meta, g.nodes, ids, i)
  {
    hide Row, Cat, Head, VectorRows, Blocks;
    var h, v, b := Head(meta, g), Cat(VectorRows(g.nodes, ids)), Cat(Blocks(g.nodes, ids));
    RowInFile(h, Rows(meta, g.nodes, ids), v + b, 24, i);
    assert h + Cat(Rows(meta, g.nodes, ids)) + (v + b) == FileBytes(meta, g, ids);
  }

  lemma VectorWidth(meta: Meta, g: Graph, ids: seq<nat>)
    requires (forall j :: 0 <= j < |ids| ==> ids[j] in g.nodes) && FileSafe(meta, g)
    ensures Width(VectorRows(g.nodes, ids), meta.dimensions * 4)
  {
    forall i | 0 <= i < |ids| ensures |VectorRows(g.nodes, ids)[i]| == meta.dimensions * 4 {
      CatWidth(Words(g.nodes[ids[i]].vector), 4);
    }
  }

  lemma VectorReadAt(file: Bytes, pos: nat, v: Vector)
    requires pos + |v| * 4 <= |file| && file[pos..pos + |v| * 4] == Cat(Words(v))
    ensures VectorAt(file, pos, |v|) == v
  {
    hide Cat;
    Widths();
    forall j | 0 <= j < |v| ensures Word(file, pos + j * 4) == v[j] {
      CatRow(Words(v), 4, j);
      SliceSlice(file, pos, pos + |v| * 4, j * 4, j * 4 + 4);
      LittleEndianValue(v[j], 4);
    }
  }

  lemma VectorRowInFile(meta: Meta, g: Graph, ids: seq<nat>, i: nat, w: nat, at: nat)
    requires (forall j :: 0 <= j < |ids| ==> ids[j] in g.nodes) && i < |ids| && w == meta.dimensions * 4
    requires at == 64 + |ids| * 24 + i * w
    requires Width(VectorRows(g.nodes, ids), w)
    ensures var file := FileBytes(meta, g, ids);
      at + w <= |file| && file[at..at + w] == VectorRows(g.nodes, ids)[i]
  {
    hide Cat, Head, Row, VectorRows, Blocks, Width;
    CatWidth(Rows(meta, g.nodes, ids), 24);
    var pre := Head(meta, g) + Cat(Rows(meta, g.nodes, ids));
    RowInFile(pre, VectorRows(g.nodes, ids), Cat(Blocks(g.nodes, ids)), w, i);
  }

  lemma VectorRead(meta: Meta, g: Graph, ids: seq<nat>, i: nat)
    requires (forall j :: 0 <= j < |ids| ==> ids[j] in g.nodes) && i < |ids| && FileSafe(meta, g)
    ensures var file, at := FileBytes(meta, g, ids), VectorPos(meta.dimensions, |ids|, i);
      at + meta.dimensions * 4 <= |file| && VectorAt(file, at, meta.dimensions) == g.nodes[ids[i]].vector
  {
    hide FileBytes, Cat, Width, SafeLists;
    VectorWidth(meta, g, ids);
    var w := meta.dimensions * 4;
    VectorRowInFile(meta, g, ids, i, w, VectorPos(meta.dimensions, |ids|, i));
    assert |g.nodes[ids[i]].vector| == meta.dimensions;
    VectorReadAt(FileBytes(meta, g, ids), VectorPos(meta.dimensions, |ids|, i), g.nodes[ids[i]].vector);
  }

  function ListsOf(nodes: Nodes, ids: seq<nat>): (r: seq<seq<seq<nat>>>)
    requires forall i :: 0 <= i < |ids| ==> ids[i] in nodes
    ensures |r| == |ids| && forall i :: 0 <= i < |ids| ==> r[i] == nodes[ids[i]].neighbors
  {
    seq(|ids|, i requires 0 <= i < |ids| => nodes[ids[i]].neighbors)
  }

  lemma BlocksRead(meta: Meta, g: Graph, ids: seq<nat>)
    requires (forall j :: 0 <= j < |ids| ==> ids[j] in g.nodes) && FileSafe(meta, g)
    ensures |FileBytes(meta, g, ids)| >= Section(meta, |ids|)
    ensures FileBytes(meta, g, ids)[Section(meta, |ids|)..] == Cat(Blocks(g.nodes, ids))
    ensures ReadBlocks(FileBytes(meta, g, ids), Section(meta, |ids|), |ids|) == Some(ListsOf(g.nodes, ids))
  {
    VectorWidth(meta, g, ids);
    CatWidth(Rows(meta, g.nodes, ids), 24);
    CatWidth(VectorRows(g.nodes, ids), meta.dimensions * 4);
    var pre := Head(meta, g) + Cat(Rows(meta, g.nodes, ids)) + Cat(VectorRows(g.nodes, ids));
    assert |pre| == Section(meta, |ids|);
    assert Blocks(g.nodes, ids) == ManyBlocks(ListsOf(g.nodes, ids));
    ReadBlocksBack(pre, ListsOf(g.nodes, ids));
    hide *;
    assert FileBytes(meta, g, ids) == pre + Cat(Blocks(g.nodes, ids)) by { FileParts(meta, g, ids); }
  }

  lemma FileParts(meta: Meta, g: Graph, ids: seq<nat>)
    requires forall i :: 0 <= i < |ids| ==> ids[i] in g.nodes
    ensures FileBytes(meta, g, ids)
            == (Head(meta, g) + Cat(Rows(meta, g.nodes, ids)) + Cat(VectorRows(g.nodes, ids)))
                + Cat(Blocks(g.nodes, ids))
  {
  }

  lemma NodeRead(meta: Meta, g: Graph, ids: seq<nat>, i: nat)
    requires (forall j :: 0 <= j < |ids| ==> ids[j] in g.nodes) && i < |ids| && FileSafe(meta, g)
    requires Section(meta, |ids|) <= |FileBytes(meta, g, ids)|
    ensures NodeAt(FileBytes(meta, g, ids), meta.dimensions, |ids|, ListsOf(g.nodes, ids), i) == g.nodes[ids[i]]
  {
    RowRead(meta, g, ids, i);
    VectorRead(meta, g, ids, i);
  }

  function Kept(nodes: Nodes, ids: set<nat>): Nodes {
    map u | u in ids && u in nodes :: nodes[u]
  }

  lemma AssembleNext(file: Bytes, dimensions: nat, count: nat, lists: seq<seq<seq<nat>>>, n: nat)
    requires 0 < n <= count == |lists| && 64 + count * 24 + count * (dimensions * 4) <= |file|
    ensures Assemble(file, dimensions, count, lists, n)
         == Assemble(file, dimensions, count, lists,
                     n - 1)[RowId(file, n - 1) := NodeAt(file, dimensions, count, lists, n - 1)]
  {
  }

  lemma KeptNext(nodes: Nodes, ids: seq<nat>, n: nat)
    requires 0 < n <= |ids| && ids[n - 1] in nodes
    ensures Kept(nodes, Elems(ids[..n])) == Kept(nodes, Elems(ids[..n - 1]))[ids[n - 1] := nodes[ids[n - 1]]]
  {
    assert ids[..n] == ids[..n - 1] + [ids[n - 1]];
    assert Elems(ids[..n]) == Elems(ids[..n - 1]) + {ids[n - 1]};
  }

  lemma NothingKept(file: Bytes, dimensions: nat, count: nat, lists: seq<seq<seq<nat>>>, nodes: Nodes, ids: seq<nat>)
    requires count == |lists| && 64 + count * 24 + count * (dimensions * 4) <= |file|
    ensures Assemble(file, dimensions, count, lists, 0) == Kept(nodes, Elems(ids[..0]))
  {
  }

  lemma {:induction false} AssembleBack(meta: Meta, g: Graph, ids: seq<nat>, n: nat)
    requires (forall j :: 0 <= j < |ids| ==> ids[j] in g.nodes) && n <= |ids| && FileSafe(meta, g)
    requires Section(meta, |ids|) <= |FileBytes(meta, g, ids)|
    ensures Assemble(FileBytes(meta, g, ids), meta.dimensions, |ids|, ListsOf(g.nodes, ids), n)
            == Kept(g.nodes, Elems(ids[..n]))
  {
    hide FileBytes, RowId, NodeAt, FileSafe, Kept, Assemble, ListsOf, Elems;
    if n == 0 {
      NothingKept(FileBytes(meta, g, ids), meta.dimensions, |ids|, ListsOf(g.nodes, ids), g.nodes, ids);
    } else {
      var file, lists := FileBytes(meta, g, ids), ListsOf(g.nodes, ids);
      AssembleBack(meta, g, ids, n - 1);
      AssembleNext(file, meta.dimensions, |ids|, lists, n);
      RowRead(meta, g, ids, n - 1);
      NodeRead(meta, g, ids, n - 1);
      KeptNext(g.nodes, ids, n);
    }
  }

  lemma AssembleAll(meta: Meta, g: Graph, ids: seq<nat>)
    requires (forall j :: 0 <= j < |ids| ==> ids[j] in g.nodes) && FileSafe(meta, g) && Elems(ids) == g.nodes.Keys
    requires Section(meta, |ids|) <= |FileBytes(meta, g, ids)|
    ensures Assemble(FileBytes(meta, g, ids), meta.dimensions, |ids|, ListsOf(g.nodes, ids), |ids|) == g.nodes
  {
    hide FileBytes, Assemble, FileSafe;
    AssembleBack(meta, g, ids, |ids|);
    assert ids[..|ids|] == ids;
    assert Kept(g.nodes, g.nodes.Keys) == g.nodes;
  }

  lemma LoadAfterSaveIds(meta: Meta, g: Graph, ids: seq<nat>)
    requires (forall j :: 0 <= j < |ids| ==> ids[j] in g.nodes) && FileSafe(meta, g)
    requires Elems(ids) == g.nodes.Keys && |ids| == |g.nodes|
    ensures LoadFile(FileBytes(meta, g, ids), meta) == Some(g)
  {
    hide FileBytes, Assemble, ReadBlocks, FileSafe, FromLittleEndian, ByteTag, ListsOf;
    HeadRead(meta, g, ids);
    BlocksRead(meta, g, ids);
    AssembleAll(meta, g, ids);
  }

  /** Load after Save gives the same index back. */
  lemma LoadAfterSave(meta: Meta, g: Graph, ids: seq<nat>)
    requires FileSafe(meta, g) && Enumerates(g.nodes, ids)
    ensures (forall i :: 0 <= i < |ids| ==> ids[i] in g.nodes) && LoadFile(FileBytes(meta, g, ids), meta) == Some(g)
  {
    EnumeratedIn(g.nodes, ids);
    hide FileBytes, LoadFile, FileSafe;
    LoadAfterSaveIds(meta, g, ids);
  }

  // ---------- only what fits can be loaded ----------

  lemma IdFits(file: Bytes, pos: nat)
    ensures Id(file, pos) < ID_LIMIT
  {
    Widths();
  }

  lemma ReadListSafe(file: Bytes, pos: nat)
    requires ReadList(file, pos).Some?
    ensures SafeIds(ReadList(file, pos).value.0)
  {
    Widths();
    hide Id, FromLittleEndian;
    forall j: nat ensures Id(file, pos + 2 + j * 8) < ID_LIMIT { IdFits(file, pos + 2 + j * 8); }
  }

  lemma {:induction false} ReadListsSafe(file: Bytes, pos: nat, count: nat)
    requires ReadLists(file, pos, count).Some?
    ensures |ReadLists(file, pos, count).value.0| == count
    ensures forall l :: 0 <= l < count ==> SafeIds(ReadLists(file, pos, count).value.0[l])
    decreases count
  {
    hide ReadList, SafeIds;
    if count > 0 {
      ReadListSafe(file, pos);
      ReadListsSafe(file, ReadList(file, pos).value.1, count - 1);
    }
  }

  lemma ReadBlockSafe(file: Bytes, pos: nat)
    requires ReadBlock(file, pos).Some?
    ensures SafeLists(ReadBlock(file, pos).value.0)
  {
    hide ReadLists, SafeIds;
    Widths();
    ReadListsSafe(file, pos + 2, FromLittleEndian(file[pos..pos + 2]));
  }

  lemma {:induction false} ReadBlocksSafe(file: Bytes, pos: nat, count: nat)
    requires ReadBlocks(file, pos, count).Some?
    ensures |ReadBlocks(file, pos, count).value| == count
    ensures forall i :: 0 <= i < count ==> SafeLists(ReadBlocks(file, pos, count).value[i])
    decreases count
  {
    hide ReadBlock, SafeLists;
    if count > 0 {
      ReadBlockSafe(file, pos);
      ReadBlocksSafe(file, ReadBlock(file, pos).value.1, count - 1);
    }
  }

  /** A node as it can stand in a file. */
  ghost predicate NodeSafe(dimensions: nat, u: nat, node: Node) {
    u < ID_LIMIT && -LIMIT31 <= node.level < LIMIT31 && |node.vector| == dimensions && SafeLists(node.neighbors)
  }

  lemma {:induction false} AssembleSafe(file: Bytes, dimensions: nat, count: nat, lists: seq<seq<seq<nat>>>, n: nat)
    requires n <= count == |lists| && 64 + count * 24 + count * (dimensions * 4) <= |file|
    requires forall i :: 0 <= i < count ==> SafeLists(lists[i])
    ensures var nodes := Assemble(file, dimensions, count, lists, n);
      |nodes| <= n && forall u :: u in nodes ==> NodeSafe(dimensions, u, nodes[u])
  {
    hide Id, SafeLists, VectorAt, RowLevel;
    if n > 0 {
      AssembleSafe(file, dimensions, count, lists, n - 1);
      IdFits(file, 64 + (n - 1) * 24);
      RowsFit(n - 1, count, dimensions * 4);
      VectorSize(file, VectorPos(dimensions, count, n - 1), dimensions);
      OneMore(Assemble(file, dimensions, count, lists, n - 1), RowId(file, n - 1),
              NodeAt(file, dimensions, count, lists, n - 1));
    }
  }

  lemma VectorSize(file: Bytes, pos: nat, n: nat)
    requires pos + n * 4 <= |file|
    ensures |VectorAt(file, pos, n)| == n
  {
  }

  lemma OneMore(nodes: Nodes, u: nat, node: Node)
    ensures |nodes[u := node]| <= |nodes| + 1
  {
    assert nodes[u := node].Keys == nodes.Keys + {u};
    assert |nodes[u := node]| == |nodes[u := node].Keys| && |nodes| == |nodes.Keys|;
  }

  lemma LoadedSafe(file: Bytes, meta: Meta, g: Graph)
    requires LoadFile(file, meta) == Some(g)
    ensures FileSafe(meta, g)
  {
    hide ReadBlocks, Assemble, SafeLists, FromLittleEndian;
    Widths();
    var count := FromLittleEndian(file[16..20]);
    ReadBlocksSafe(file, Section(meta, count), count);
    AssembleSafe(file, meta.dimensions, count, ReadBlocks(file, Section(meta, count), count).value, count);
  }

  /** The exact condition: an index comes back from its file if and only if everything fits its field. */
  lemma LoadIffSafe(meta: Meta, g: Graph, ids: seq<nat>)
    requires Enumerates(g.nodes, ids)
    ensures (forall i :: 0 <= i < |ids| ==> ids[i] in g.nodes)
    ensures LoadFile(FileBytes(meta, g, ids), meta) == Some(g) <==> FileSafe(meta, g)
  {
    EnumeratedIn(g.nodes, ids);
    hide FileBytes, LoadFile, FileSafe;
    if FileSafe(meta, g) { LoadAfterSave(meta, g, ids); }
    if LoadFile(FileBytes(meta, g, ids), meta) == Some(g) { LoadedSafe(FileBytes(meta, g, ids), meta, g); }
  }

  /** Every index a run can reach, of fewer than 2^32 nodes, survives Save and Load. */
  lemma ReachableRoundTrip(cfg: Config, ops: seq<Op>, g: Graph, meta: Meta, ids: seq<nat>)
    requires Runs(cfg, ops, g) && meta.dimensions == cfg.dimensions < LIMIT32 && 2 * cfg.m < LIMIT16
    requires |g.nodes| < LIMIT32
    requires Enumerates(g.nodes, ids)
    ensures (forall i :: 0 <= i < |ids| ==> ids[i] in g.nodes) && LoadFile(FileBytes(meta, g, ids), meta) == Some(g)
  {
    hide *;
    RunsAreSafe(cfg, ops, g, meta);
    LoadAfterSave(meta, g, ids);
  }

  lemma HeadRead(meta: Meta, g: Graph, ids: seq<nat>)
    requires (forall j :: 0 <= j < |ids| ==> ids[j] in g.nodes) && FileSafe(meta, g)
    ensures var file := FileBytes(meta, g, ids);
      && |file| >= 64 && file[..8] == MAGIC && FromLittleEndian(file[8..12]) == meta.dimensions
      && ByteTag(file[12]) == meta.tag && FromLittleEndian(file[16..20]) == |g.nodes|
      && FromLittleEndian(file[20..28]) == g.entryPoint && FromLittleEndian(file[28..32]) == g.maxLevel
      && (file[36] == 1 <==> g.hasEntry)
  {
    hide Head, Cat, LittleEndian, FromLittleEndian, Rows, VectorRows, Blocks, SafeLists;
    Widths();
    LittleEndianValue(meta.dimensions, 4);
    LittleEndianValue(|g.nodes|, 4);
    LittleEndianValue(g.entryPoint, 8);
    LittleEndianValue(Wrap(g.maxLevel), 4);
    HeadSlices(meta, g);
    var rest := Cat(Rows(meta, g.nodes, ids)) + Cat(VectorRows(g.nodes, ids)) + Cat(Blocks(g.nodes, ids));
    assert FileBytes(meta, g, ids) == Head(meta, g) + rest;
    HeadInFile(Head(meta, g), rest);
  }

  lemma OffsetField(meta: Meta, g: Graph, ids: seq<nat>, i: nat)
    requires (forall j :: 0 <= j < |ids| ==> ids[j] in g.nodes) && i < |ids|
    requires Section(meta, |ids|) + |Cat(Blocks(g.nodes, ids)[..i])| < LIMIT32
    ensures Word(FileBytes(meta, g, ids), 64 + i * 24 + 16) == Section(meta, |ids|) + |Cat(Blocks(g.nodes, ids)[..i])|
  {
    hide FileBytes, Row, Cat, LittleEndian, FromLittleEndian, Section, Blocks;
    RowInTable(meta, g, ids, i);
    RowFields(meta, g.nodes, ids, i);
    Widths();
    LittleEndianValue(Section(meta, |ids|) + |Cat(Blocks(g.nodes, ids)[..i])|, 4);
    SliceSlice(FileBytes(meta, g, ids), 64 + i * 24, 64 + i * 24 + 24, 16, 20);
  }

  lemma TailSlice(file: Bytes, s: nat, off: nat, block: Bytes)
    requires s <= |file| && off + |block| <= |file| - s && file[s..][off..off + |block|] == block
    ensures block <= file[s + off..]
  {
    assert file[s..] == file[s..|file|];
    SliceSlice(file, s, |file|, off, off + |block|);
    assert file[s + off..][..|block|] == file[s + off..s + off + |block|];
  }

  /** When the file is shorter than 2^32 bytes, the offset in each table row is the exact position of
      that node's neighbour block. */
  lemma OffsetsExact(meta: Meta, g: Graph, ids: seq<nat>, i: nat)
    requires FileSafe(meta, g) && Enumerates(g.nodes, ids) && i < |ids|
    requires (forall j :: 0 <= j < |ids| ==> ids[j] in g.nodes) && |FileBytes(meta, g, ids)| < LIMIT32
    ensures var file := FileBytes(meta, g, ids);
      var at := Word(file, 64 + i * 24 + 16);
      && at == Section(meta, |ids|) + |Cat(Blocks(g.nodes, ids)[..i])|
      && at <= |file| && BlockBytes(g.nodes[ids[i]].neighbors) <= file[at..]
  {
    hide FileBytes, FileSafe, Enumerates, Cat, BlockBytes, Section, Word;
    var blocks := Blocks(g.nodes, ids);
    BlocksRead(meta, g, ids);
    CatAt(blocks, i);
    OffsetField(meta, g, ids, i);
    TailSlice(FileBytes(meta, g, ids), Section(meta, |ids|), |Cat(blocks[..i])|, blocks[i]);
  }

  lemma {:induction false} ListsLength(lists: seq<seq<nat>>)
    ensures |Cat(Lists(lists))| == 2 * |lists| + 8 * Total(lists)
    decreases |lists|
  {
    if lists != [] {
      ListsLength(lists[1..]);
      assert Lists(lists)[1..] == Lists(lists[1..]);
      CatWidth(IdBytes(lists[0]), 8);
    }
  }

  lemma RowNumbers(meta: Meta, g: Graph, ids: seq<nat>, i: nat)
    requires (forall j :: 0 <= j < |ids| ==> ids[j] in g.nodes) && i < |ids|
    requires i * (meta.dimensions * 4) < LIMIT32 && Total(g.nodes[ids[i]].neighbors) < LIMIT32
    ensures var file := FileBytes(meta, g, ids);
      && Word(file, 64 + i * 24 + 12) == i * (meta.dimensions * 4)
      && Word(file, 64 + i * 24 + 20) == Total(g.nodes[ids[i]].neighbors)
  {
    hide FileBytes, Row, LittleEndian, FromLittleEndian, Section, Cat, Total;
    var file, at := FileBytes(meta, g, ids), 64 + i * 24;
    RowInTable(meta, g, ids, i);
    RowFields(meta, g.nodes, ids, i);
    Widths();
    LittleEndianValue(i * (meta.dimensions * 4), 4);
    LittleEndianValue(Total(g.nodes[ids[i]].neighbors), 4);
    SliceSlice(file, at, at + 24, 12, 16);
    SliceSlice(file, at, at + 24, 20, 24);
  }

  lemma BlockInside(meta: Meta, g: Graph, ids: seq<nat>, i: nat)
    requires FileSafe(meta, g) && (forall j :: 0 <= j < |ids| ==> ids[j] in g.nodes) && i < |ids|
    ensures |BlockBytes(g.nodes[ids[i]].neighbors)| <= |FileBytes(meta, g, ids)|
    ensures i * (meta.dimensions * 4) <= |FileBytes(meta, g, ids)|
  {
    hide FileBytes, FileSafe, Cat, BlockBytes;
    BlocksRead(meta, g, ids);
    CatAt(Blocks(g.nodes, ids), i);
    RowsFit(i, |ids|, meta.dimensions * 4);
  }

  /** In a file below 2^32 bytes a row's vector offset, counted from the vector section, leads to the
      node's vector, and its neighbour count is the number of ids in the node's block. */
  lemma RowExact(meta: Meta, g: Graph, ids: seq<nat>, i: nat)
    requires FileSafe(meta, g) && Enumerates(g.nodes, ids) && i < |ids|
    requires (forall j :: 0 <= j < |ids| ==> ids[j] in g.nodes) && |FileBytes(meta, g, ids)| < LIMIT32
    ensures var file, node := FileBytes(meta, g, ids), g.nodes[ids[i]];
      var at := 64 + |ids| * 24 + Word(file, 64 + i * 24 + 12);
      && at + meta.dimensions * 4 <= |file| && VectorAt(file, at, meta.dimensions) == node.vector
      && 2 + 2 * |node.neighbors| + 8 * Word(file, 64 + i * 24 + 20) == |BlockBytes(node.neighbors)|
  {
    var lists := g.nodes[ids[i]].neighbors;
    ListsLength(lists);
    assert |BlockBytes(lists)| == 2 + |Cat(Lists(lists))|;
    hide FileBytes, FileSafe, Enumerates, Cat, BlockBytes, Word, VectorAt, Total;
    BlockInside(meta, g, ids, i);
    RowNumbers(meta, g, ids, i);
    VectorRead(meta, g, ids, i);
  }

  // ---------- files of another index ----------

  lemma HeadFields(meta: Meta, g: Graph, ids: seq<nat>)
    requires forall j :: 0 <= j < |ids| ==> ids[j] in g.nodes
    ensures var file := FileBytes(meta, g, ids);
      && |file| >= 64 && file[..8] == MAGIC && file[8..12] == LittleEndian(meta.dimensions, 4)
      && file[12] == TagByte(meta.tag) && file[32..36] == LittleEndian(meta.m, 4)
  {
    hide Head, Cat, LittleEndian, Rows, VectorRows, Blocks;
    HeadSlices(meta, g);
    var rest := Cat(Rows(meta, g.nodes, ids)) + Cat(VectorRows(g.nodes, ids)) + Cat(Blocks(g.nodes, ids));
    assert FileBytes(meta, g, ids) == Head(meta, g) + rest;
    HeadInFile(Head(meta, g), rest);
  }

  /** The header names M, the dimension (both in 32 bits) and the metric. */
  lemma HeadNumbers(meta: Meta, g: Graph, ids: seq<nat>)
    requires (forall j :: 0 <= j < |ids| ==> ids[j] in g.nodes) && meta.dimensions < LIMIT32 && meta.m < LIMIT32
    ensures var file := FileBytes(meta, g, ids);
      && |file| >= 64 && Word(file, 8) == meta.dimensions && Word(file, 32) == meta.m
      && file[12] == (match meta.tag case L2 => 0 case Cosine => 1 case InnerProduct => 2)
  {
    hide FileBytes, LittleEndian, FromLittleEndian;
    HeadFields(meta, g, ids);
    Widths();
    LittleEndianValue(meta.dimensions, 4);
    LittleEndianValue(meta.m, 4);
  }

  /** An unknown metric byte is read as L2. */
  lemma MetricBytes(b: Byte)
    ensures (ByteTag(b) == Cosine <==> b == 1) && (ByteTag(b) == InnerProduct <==> b == 2)
    ensures ByteTag(b) == L2 <==> b != 1 && b != 2
  {
  }

  /** An index of another dimension or metric refuses the file. */
  lemma OtherIndexRefuses(meta: Meta, g: Graph, ids: seq<nat>, other: Meta)
    requires (forall j :: 0 <= j < |ids| ==> ids[j] in g.nodes) && meta.dimensions < LIMIT32
    requires other.dimensions != meta.dimensions || other.tag != meta.tag
    ensures LoadFile(FileBytes(meta, g, ids), other) == None
  {
    hide FileBytes, LittleEndian, FromLittleEndian, Assemble, ReadBlocks;
    HeadFields(meta, g, ids);
    Widths();
    LittleEndianValue(meta.dimensions, 4);
  }

  /** So does every index a file that is too short or does not begin with "HNSWV001". */
  lemma ForeignFileRefused(file: Bytes, meta: Meta)
    requires |file| < 64 || exists i :: 0 <= i < 8 && file[i] != "HNSWV001"[i] as int
    ensures LoadFile(file, meta) == None
  {
    hide Assemble, ReadBlocks, FromLittleEndian;
    if |file| >= 64 {
      var i :| 0 <= i < 8 && file[i] != "HNSWV001"[i] as int;
      assert MAGIC[i] == "HNSWV001"[i] as int;
      assert file[..8][i] != MAGIC[i];
    }
  }

  /** Every index a run can reach fits the file format. */
  lemma RunsAreSafe(cfg: Config, ops: seq<Op>, g: Graph, meta: Meta)
    requires Runs(cfg, ops, g) && meta.dimensions == cfg.dimensions < LIMIT32 && 2 * cfg.m < LIMIT16
    requires |g.nodes| < LIMIT32
    ensures FileSafe(meta, g)
  {
    RunKeeps(cfg, ops, g);
    hide Runs, EntryInv;
    forall u, l, i | u in g.nodes && 0 <= l < |g.nodes[u].neighbors| && 0 <= i < |g.nodes[u].neighbors[l]|
      ensures g.nodes[u].neighbors[l][i] < ID_LIMIT
    {
      assert ListOk(g.nodes, u, l, cfg.m);
      var v := g.nodes[u].neighbors[l][i];
      assert v in g.nodes[u].neighbors[l];
      assert v > u ==> LinksBack(g.nodes, v, u, l);
    }
    forall u, l | u in g.nodes && 0 <= l < |g.nodes[u].neighbors| ensures SafeIds(g.nodes[u].neighbors[l]) {
      assert ListOk(g.nodes, u, l, cfg.m);
    }
  }
}
