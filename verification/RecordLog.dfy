/** The bucket file: length-prefixed records appended one after another, the full scan that
    rebuilds the offset index, and the buffered record reader. */
module RecordLog {
  import opened Wrappers
  import opened Bytes
  import opened Seqs

  /** A record as stored; the payload is already compressed. */
  datatype Rec = Rec(key: Bytes, payload: Bytes)

  function Enc(r: Rec): Bytes {
    BigEndian(|r.key|, 4) + r.key + BigEndian(|r.payload|, 4) + r.payload
  }

  /** Both lengths fit their four-byte fields. */
  predicate Fits(r: Rec) {
    |r.key| < LIMIT32 && |r.payload| < LIMIT32
  }

  // ---------- plain parsing ----------

  datatype Header = Header(key: Bytes, start: nat, size: nat)

  /** Key and payload length of the record at `off`, if its header is complete. */
  function ParseHeader(file: Bytes, off: nat): (h: Option<Header>)
    ensures h.Some? ==> off + 8 <= h.value.start <= |file|
  {
    if off + 4 > |file| then None
    else
      var n := FromBigEndian(file[off..off + 4]);
      if off + 8 + n > |file| then None
      else Some(Header(file[off + 4..off + 4 + n], off + 8 + n, FromBigEndian(file[off + 4 + n..off + 8 + n])))
  }

  function Parse(file: Bytes, off: nat): Option<Rec> {
    match ParseHeader(file, off)
    case None => None
    case Some(h) =>
      if h.start + h.size > |file| then None else Some(Rec(h.key, file[h.start..h.start + h.size]))
  }

  lemma ParseParts(file: Bytes, off: nat, n: nat, key: Bytes, lenField: Bytes)
    requires n == |key| < LIMIT32 && |lenField| == 4 && off + 8 + n <= |file|
    requires file[off..off + 4] == BigEndian(n, 4)
    requires file[off + 4..off + 4 + n] == key && file[off + 4 + n..off + 8 + n] == lenField
    ensures ParseHeader(file, off) == Some(Header(key, off + 8 + n, FromBigEndian(lenField)))
  {
    hide BigEndian, FromBigEndian;
    Widths();
    BigEndianValue(n, 4);
    assert FromBigEndian(file[off..off + 4]) == n;
  }

  lemma EncSlices(pre: Bytes, a: Bytes, key: Bytes, b: Bytes, payload: Bytes, post: Bytes)
    requires |a| == |b| == 4
    ensures var file, off, n := pre + (a + key + b + payload) + post, |pre|, |key|;
      && off + 8 + n + |payload| <= |file|
      && file[off..off + 4] == a && file[off + 4..off + 4 + n] == key
      && file[off + 4 + n..off + 8 + n] == b && file[off + 8 + n..off + 8 + n + |payload|] == payload
  {
  }

  /** What stands where a record was written; of a longer payload length only 32 bits are left. */
  lemma HeaderEnc(pre: Bytes, r: Rec, post: Bytes)
    requires |r.key| < LIMIT32
    ensures var file, start := pre + Enc(r) + post, |pre| + 8 + |r.key|;
      && ParseHeader(file, |pre|) == Some(Header(r.key, start, |r.payload| % LIMIT32))
      && start + |r.payload| <= |file| && file[start..start + |r.payload|] == r.payload
  {
    hide BigEndian, FromBigEndian, ParseHeader;
    var a, b := BigEndian(|r.key|, 4), BigEndian(|r.payload|, 4);
    EncSlices(pre, a, r.key, b, r.payload, post);
    Widths();
    BigEndianTruncates(|r.payload|, 4);
    ParseParts(pre + Enc(r) + post, |pre|, |r.key|, r.key, b);
  }

  /** A record that fits is parsed back, wherever it stands in the file. */
  lemma ParseEnc(pre: Bytes, r: Rec, post: Bytes)
    requires Fits(r)
    ensures ParseHeader(pre + Enc(r) + post, |pre|) == Some(Header(r.key, |pre| + 8 + |r.key|, |r.payload|))
    ensures Parse(pre + Enc(r) + post, |pre|) == Some(r)
  {
    hide Enc, ParseHeader;
    HeaderEnc(pre, r, post);
  }

  lemma ParsedSizes(file: Bytes, off: nat)
    requires Parse(file, off).Some?
    ensures Fits(Parse(file, off).value)
  {
    Widths();
  }

  /** BatchAppend does not check sizes: a record reads back exactly when it fits. */
  lemma ReadsBackIffFits(r: Rec)
    ensures Parse(Enc(r), 0) == Some(r) <==> Fits(r)
  {
    if Fits(r) {
      ParseEnc([], r, []);
      assert [] + Enc(r) + [] == Enc(r);
    }
    if Parse(Enc(r), 0) == Some(r) { ParsedSizes(Enc(r), 0); }
  }

  // ---------- files made of records ----------

  function Flat(recs: seq<Rec>): Bytes {
    if recs == [] then [] else Flat(recs[..|recs| - 1]) + Enc(recs[|recs| - 1])
  }

  ghost predicate AllFit(recs: seq<Rec>) {
    forall i :: 0 <= i < |recs| ==> Fits(recs[i])
  }

  /** Where record `i` starts: the records tile the file without gaps. */
  function Start(recs: seq<Rec>, i: nat): nat
    requires i <= |recs|
  {
    |Flat(recs[..i])|
  }

  lemma {:induction false} FlatSplit(recs: seq<Rec>, i: nat) returns (post: Bytes)
    requires i < |recs|
    ensures Flat(recs) == Flat(recs[..i]) + Enc(recs[i]) + post
    ensures i + 1 <= |recs| && Flat(recs[..i + 1]) == Flat(recs[..i]) + Enc(recs[i])
  {
    hide Enc;
    assert recs[..i + 1][..i] == recs[..i];
    if i == |recs| - 1 {
      post := [];
      assert recs[..i + 1] == recs;
    } else {
      var front := recs[..|recs| - 1];
      var p := FlatSplit(front, i);
      assert front[..i] == recs[..i];
      post := p + Enc(recs[|recs| - 1]);
    }
  }

  lemma RecordAt(recs: seq<Rec>, i: nat)
    requires i < |recs| && Fits(recs[i])
    ensures Parse(Flat(recs), Start(recs, i)) == Some(recs[i])
    ensures ParseHeader(Flat(recs), Start(recs, i)).Some?
    ensures var h := ParseHeader(Flat(recs), Start(recs, i)).value;
      h.key == recs[i].key && h.start + h.size == Start(recs, i + 1)
    ensures Start(recs, i + 1) == Start(recs, i) + |Enc(recs[i])|
    ensures Start(recs, i) < |Flat(recs)|
  {
    var post := FlatSplit(recs, i);
    ParseEnc(Flat(recs[..i]), recs[i], post);
  }

  // ---------- the scan of rebuildIndex ----------

  datatype Entry = Entry(key: Bytes, offset: nat)

  type Index = map<Bytes, seq<nat>>

  /** The scan needs only complete headers: it seeks over the payload without reading it. */
  function Scan(file: Bytes, off: nat): seq<Entry>
    decreases if off < |file| then |file| - off else 0
  {
    if off >= |file| then []
    else match ParseHeader(file, off)
      case None => []
      case Some(h) => [Entry(h.key, off)] + Scan(file, h.start + h.size)
  }

  function Entries(recs: seq<Rec>): (es: seq<Entry>)
    ensures |es| == |recs|
  {
    seq(|recs|, i requires 0 <= i < |recs| => Entry(recs[i].key, Start(recs, i)))
  }

  lemma EntryAt(recs: seq<Rec>, i: nat)
    requires i < |recs|
    ensures Entries(recs)[i] == Entry(recs[i].key, Start(recs, i))
  {
    hide Start;
  }

  lemma HeaderAt(recs: seq<Rec>, i: nat) returns (h: Header)
    requires i < |recs| && Fits(recs[i])
    ensures ParseHeader(Flat(recs), Start(recs, i)) == Some(h) && Start(recs, i) < |Flat(recs)|
    ensures h.key == recs[i].key && h.start + h.size == Start(recs, i + 1)
  {
    hide *;
    RecordAt(recs, i);
    h := ParseHeader(Flat(recs), Start(recs, i)).value;
  }

  lemma ScanStep(recs: seq<Rec>, i: nat)
    requires i < |recs| && Fits(recs[i])
    ensures Scan(Flat(recs), Start(recs, i)) == [Entries(recs)[i]] + Scan(Flat(recs), Start(recs, i + 1))
  {
    hide *;
    var h := HeaderAt(recs, i);
    ScanHead(Flat(recs), Start(recs, i), h);
    EntryAt(recs, i);
  }

  lemma {:induction false} ScanTail(recs: seq<Rec>, i: nat)
    requires AllFit(recs) && i <= |recs|
    ensures Scan(Flat(recs), Start(recs, i)) == Entries(recs)[i..]
    decreases |recs| - i
  {
    hide Flat, Entries;
    if i == |recs| {
      assert recs[..i] == recs;
    } else {
      hide Scan, Start;
      ScanStep(recs, i);
      ScanTail(recs, i + 1);
      SplitAt(Entries(recs), i);
    }
  }

  /** The scan of a file of complete records finds every record at its own offset. */
  lemma ScanFlat(recs: seq<Rec>)
    requires AllFit(recs)
    ensures Scan(Flat(recs), 0) == Entries(recs)
  {
    ScanTail(recs, 0);
    assert recs[..0] == [];
    assert Entries(recs)[0..] == Entries(recs);
  }

  function Lookup(index: Index, key: Bytes): seq<nat> {
    if key in index then index[key] else []
  }

  function AddOffset(index: Index, key: Bytes, offset: nat): Index {
    index[key := Lookup(index, key) + [offset]]
  }

  function IndexOf(es: seq<Entry>): Index {
    if es == [] then map[] else AddOffset(IndexOf(es[..|es| - 1]), es[|es| - 1].key, es[|es| - 1].offset)
  }

  lemma ScanNext(file: Bytes, off: nat, h: Header, found: seq<Entry>) returns (found': seq<Entry>)
    requires off < |file| && ParseHeader(file, off) == Some(h)
    ensures found' + Scan(file, h.start + h.size) == found + Scan(file, off)
    ensures IndexOf(found') == AddOffset(IndexOf(found), h.key, off)
  {
    hide ParseHeader;
    var e := Entry(h.key, off);
    found' := found + [e];
    ScanHead(file, off, h);
    IndexOfSnoc(found, e);
    hide Scan, IndexOf;
    Reassociate(found, [e], Scan(file, h.start + h.size));
  }

  lemma ScanHead(file: Bytes, off: nat, h: Header)
    requires off < |file| && ParseHeader(file, off) == Some(h)
    ensures Scan(file, off) == [Entry(h.key, off)] + Scan(file, h.start + h.size)
  {
    hide ParseHeader;
  }

  lemma IndexOfSnoc(es: seq<Entry>, e: Entry)
    ensures IndexOf(es + [e]) == AddOffset(IndexOf(es), e.key, e.offset)
  {
    hide AddOffset;
    assert (es + [e])[..|es|] == es;
  }

  lemma Reassociate(a: seq<Entry>, b: seq<Entry>, c: seq<Entry>)
    ensures a + b + c == a + (b + c)
  {
  }

  lemma ScanStops(file: Bytes, off: nat)
    requires off >= |file| || ParseHeader(file, off) == None
    ensures Scan(file, off) == []
  {
  }

  /** rebuildIndex. */
  method RebuildIndex(file: Bytes) returns (index: Index)
    ensures index == IndexOf(Scan(file, 0))
  {
    index := map[];
    hide Scan, AddOffset;
    var offset: nat := 0;
    ghost var found: seq<Entry> := [];
    while offset < |file|
      invariant index == IndexOf(found) && found + Scan(file, offset) == Scan(file, 0)
      decreases if offset < |file| then |file| - offset else 0
    {
      if offset + 4 > |file| { break; }
      var keyLen := FromBigEndian(file[offset..offset + 4]);
      if offset + 4 + keyLen > |file| { break; }
      var key := file[offset + 4..offset + 4 + keyLen];
      if offset + 8 + keyLen > |file| { break; }
      var payloadLen := FromBigEndian(file[offset + 4 + keyLen..offset + 8 + keyLen]);
      found := ScanNext(file, offset, Header(key, offset + 8 + keyLen, payloadLen), found);
      index := AddOffset(index, key, offset);
      offset := offset + 8 + keyLen + payloadLen;
    }
    ScanStops(file, offset);
    assert found + [] == found;
  }

  // ---------- the buffered reader ----------

  const BUF_SIZE := 4096

  /** File.ReadAt filling a whole buffer; a short read is an error. */
  function ReadFull(file: Bytes, off: nat, n: nat): Option<Bytes> {
    if n == 0 then Some([]) else if off + n <= |file| then Some(file[off..off + n]) else None
  }

  /** How many bytes the optimistic read gets. */
  function Got(file: Bytes, off: nat): (n: nat)
    ensures off <= |file| ==> off + n <= |file|
    ensures n <= BUF_SIZE && (n < BUF_SIZE ==> off + n >= |file|)
    ensures n > 0 ==> off + n <= |file|
  {
    if off >= |file| then 0 else if |file| - off < BUF_SIZE then |file| - off else BUF_SIZE
  }

  /** The parse that readRecordAt performs: the position of the payload length is computed in
      32 bits. */
  function WrappedParse(file: Bytes, off: nat): Option<Bytes> {
    match ParseHeader(file, off)
    case None => None
    case Some(h) =>
      var at := off + (4 + |h.key|) % LIMIT32;
      var size := FromBigEndian(file[at..at + 4]);
      if h.start + size > |file| then None else Some(file[h.start..h.start + size])
  }

  type Decompress = Bytes -> Option<Bytes>

  function Unpack(payload: Option<Bytes>, decompress: Decompress): Option<Bytes> {
    match payload case None => None case Some(p) => decompress(p)
  }

  lemma WrappedParseIs(file: Bytes, off: nat, keyLen: nat)
    requires off + 4 <= |file| && keyLen == FromBigEndian(file[off..off + 4])
    ensures (4 + keyLen) % LIMIT32 + 4 <= 8 + keyLen
    ensures off + 8 + keyLen > |file| ==> WrappedParse(file, off) == None
    ensures off + 8 + keyLen <= |file| ==>
              var at := off + (4 + keyLen) % LIMIT32;
              WrappedParse(file, off) == ReadFull(file, off + 8 + keyLen, FromBigEndian(file[at..at + 4]))
  {
    assert off + 8 + keyLen <= |file| ==> file[off + 8 + keyLen..off + 8 + keyLen] == [];
  }

  /** The path for a header that ends beyond the buffer. */
  method ReadLongHeader(file: Bytes, off: nat, n: nat, keyLen: nat) returns (payload: Option<Bytes>)
    requires 4 <= n == Got(file, off) && keyLen == FromBigEndian(file[off..off + 4]) && n < 4 + keyLen + 4
    ensures payload == WrappedParse(file, off)
  {
    hide WrappedParse, FromBigEndian;
    WrappedParseIs(file, off, keyLen);
    var headerEnd := 4 + keyLen + 4;
    var rest := ReadFull(file, off + n, headerEnd - n);
    if rest.None? { return None; }
    var fullHeader := file[off..off + n] + rest.value;
    SliceJoin(file, off, off + n, off + headerEnd);
    var at := (4 + keyLen) % LIMIT32;
    SliceSlice(file, off, off + headerEnd, at, at + 4);
    var payloadLen := FromBigEndian(fullHeader[at..at + 4]);
    payload := ReadFull(file, off + headerEnd, payloadLen);
  }

  /** The paths for a header inside the buffer: the payload is there too, or is completed. */
  method ReadShortHeader(file: Bytes, off: nat, n: nat, keyLen: nat) returns (payload: Option<Bytes>)
    requires 4 <= n == Got(file, off) && keyLen == FromBigEndian(file[off..off + 4]) && n >= 4 + keyLen + 4
    ensures payload == WrappedParse(file, off)
  {
    hide WrappedParse, FromBigEndian;
    WrappedParseIs(file, off, keyLen);
    var buf := file[off..off + n];
    var headerEnd := 4 + keyLen + 4;
    SliceSlice(file, off, off + n, 4 + keyLen, headerEnd);
    var payloadLen := FromBigEndian(buf[4 + keyLen..headerEnd]);
    var totalSize := headerEnd + payloadLen;
    if n >= totalSize {
      payload := Some(buf[headerEnd..totalSize]);
      SliceSlice(file, off, off + n, headerEnd, totalSize);
    } else {
      var rest := ReadFull(file, off + n, totalSize - n);
      if rest.None? { return None; }
      payload := Some(buf[headerEnd..n] + rest.value);
      SliceSlice(file, off, off + n, headerEnd, n);
      SliceJoin(file, off + headerEnd, off + n, off + totalSize);
    }
  }

  /** readRecordAt. */
  method ReadRecordAt(file: Bytes, off: nat, decompress: Decompress) returns (r: Option<Bytes>)
    ensures r == Unpack(WrappedParse(file, off), decompress)
  {
    var n := Got(file, off);
    if n < 4 { return None; }
    var buf := file[off..off + n];
    assert buf[0..4] == file[off..off + 4];
    var keyLen := FromBigEndian(buf[0..4]);
    var payload;
    if n < 4 + keyLen + 4 {
      payload := ReadLongHeader(file, off, n, keyLen);
    } else {
      payload := ReadShortHeader(file, off, n, keyLen);
    }
    r := Unpack(payload, decompress);
  }

  function PayloadOf(r: Option<Rec>): Option<Bytes> {
    match r case None => None case Some(rec) => Some(rec.payload)
  }

  /** On every file and at every offset, complete record or not, the buffered reader agrees with
      the plain parse as long as the key length plus four stays below 2^32. */
  lemma ReaderAgrees(file: Bytes, off: nat)
    requires off + 4 <= |file| ==> FromBigEndian(file[off..off + 4]) + 4 < LIMIT32
    ensures WrappedParse(file, off) == PayloadOf(Parse(file, off))
  {
  }

  lemma SameRead(file: Bytes, off: nat, m: nat, n: nat)
    requires off <= |file|
    ensures ReadFull(file, off, m) == ReadFull(file, off, n) <==>
            m == n || (off + m > |file| && off + n > |file|)
  {
    if off + m <= |file| { assert |file[off..off + m]| == m; }
    if off + n <= |file| { assert |file[off..off + n]| == n; }
  }

  /** A key of 2^32 - 4 bytes or more makes the position wrap into the record's first bytes: the
      reader is right exactly when they give the payload's length, or when the record is cut off
      and they reach beyond the file too. */
  lemma ReaderWraps(file: Bytes, off: nat, h: Header)
    requires ParseHeader(file, off) == Some(h) && |h.key| + 4 >= LIMIT32
    ensures |h.key| + 4 - LIMIT32 < 4
    ensures var at := off + |h.key| + 4 - LIMIT32;
      var size := FromBigEndian(file[at..at + 4]);
      && WrappedParse(file, off) == ReadFull(file, h.start, size)
      && (WrappedParse(file, off) == PayloadOf(Parse(file, off)) <==>
          size == h.size || (h.start + size > |file| && h.start + h.size > |file|))
  {
    Widths();
    hide FromBigEndian, Pow256;
    assert file[h.start..h.start] == [];
    var at := off + |h.key| + 4 - LIMIT32;
    SameRead(file, h.start, FromBigEndian(file[at..at + 4]), h.size);
  }

  /** The exact condition on a complete record: the key is short enough, or the four bytes that the
      wrapped position points to happen to hold the payload's length. */
  lemma ReaderExact(file: Bytes, off: nat, r: Rec)
    requires Parse(file, off) == Some(r)
    ensures off + 8 + |r.key| <= |file|
    ensures WrappedParse(file, off) == Some(r.payload) <==>
            || |r.key| + 4 < LIMIT32
            || FromBigEndian(file[off + |r.key| + 4 - LIMIT32..off + |r.key| + 8 - LIMIT32]) == |r.payload|
  {
    var h := ParseHeader(file, off).value;
    assert r.key == h.key && h.start == off + 8 + |h.key| && |r.payload| == h.size;
    if |r.key| + 4 < LIMIT32 {
      KeyLength(file, off, h);
      ReaderAgrees(file, off);
    } else {
      hide ParseHeader, WrappedParse, FromBigEndian;
      ReaderWraps(file, off, h);
    }
  }

  lemma KeyLength(file: Bytes, off: nat, h: Header)
    requires ParseHeader(file, off) == Some(h)
    ensures off + 4 <= |file| && FromBigEndian(file[off..off + 4]) == |h.key|
  {
    hide FromBigEndian;
  }

  /** A record with a short key reads back as its payload, cut to the length that was stored. */
  lemma ReadWritten(pre: Bytes, r: Rec, post: Bytes)
    requires |r.key| + 4 < LIMIT32
    ensures WrappedParse(pre + Enc(r) + post, |pre|) == Some(r.payload[..|r.payload| % LIMIT32])
  {
    hide Enc, FromBigEndian;
    var file := pre + Enc(r) + post;
    HeaderEnc(pre, r, post);
    var h := ParseHeader(file, |pre|).value;
    KeyLength(file, |pre|, h);
    ReaderAgrees(file, |pre|);
    hide ParseHeader;
    var start, size := h.start, |r.payload| % LIMIT32;
    SliceSlice(file, start, start + |r.payload|, 0, size);
    assert file[start..start + |r.payload|][0..size] == r.payload[..size];
  }

  // ---------- a file that ends in the middle of a record ----------

  lemma HeaderBefore(recs: seq<Rec>, i: nat, tail: Bytes) returns (h: Header)
    requires i < |recs| && Fits(recs[i])
    ensures ParseHeader(Flat(recs) + tail, Start(recs, i)) == Some(h) && Start(recs, i) < |Flat(recs)|
    ensures h.key == recs[i].key && h.start + h.size == Start(recs, i + 1)
  {
    hide Enc, ParseHeader;
    var post := FlatSplit(recs, i);
    var pre := Flat(recs[..i]);
    assert Flat(recs) + tail == pre + Enc(recs[i]) + (post + tail);
    ParseEnc(pre, recs[i], post + tail);
    h := ParseHeader(Flat(recs) + tail, Start(recs, i)).value;
    EncLength(recs[i]);
  }

  lemma EncLength(r: Rec)
    ensures |Enc(r)| == 8 + |r.key| + |r.payload|
  {
  }

  lemma {:induction false} ScanBefore(recs: seq<Rec>, i: nat, tail: Bytes)
    requires AllFit(recs) && i <= |recs|
    ensures var file := Flat(recs) + tail;
      Scan(file, Start(recs, i)) == Entries(recs)[i..] + Scan(file, |Flat(recs)|)
    decreases |recs| - i
  {
    hide Flat, Entries, Scan;
    if i == |recs| {
      assert recs[..i] == recs;
      assert Entries(recs)[i..] == [];
    } else {
      hide Start;
      var h := HeaderBefore(recs, i, tail);
      ScanHead(Flat(recs) + tail, Start(recs, i), h);
      EntryAt(recs, i);
      ScanBefore(recs, i + 1, tail);
      SplitAt(Entries(recs), i);
      Reassociate([Entries(recs)[i]], Entries(recs)[i + 1..], Scan(Flat(recs) + tail, |Flat(recs)|));
    }
  }

  lemma EncParts(r: Rec)
    ensures |Enc(r)| == 8 + |r.key| + |r.payload| && Enc(r)[..4] == BigEndian(|r.key|, 4)
    ensures Enc(r)[4..4 + |r.key|] == r.key && Enc(r)[4 + |r.key|..8 + |r.key|] == BigEndian(|r.payload|, 4)
  {
    hide BigEndian;
    EncSlices([], BigEndian(|r.key|, 4), r.key, BigEndian(|r.payload|, 4), r.payload, []);
    assert [] + Enc(r) + [] == Enc(r);
  }

  /** The header of a torn record: there exactly when it was written whole. */
  lemma TornHeader(pre: Bytes, r: Rec, n: nat)
    requires Fits(r) && n < |Enc(r)|
    ensures ParseHeader(pre + Enc(r)[..n], |pre|) ==
            if n < 8 + |r.key| then None else Some(Header(r.key, |pre| + 8 + |r.key|, |r.payload|))
  {
    hide Enc, BigEndian, FromBigEndian;
    var file, off := pre + Enc(r)[..n], |pre|;
    EncParts(r);
    Widths();
    if n >= 4 {
      BigEndianValue(|r.key|, 4);
      assert file[off..off + 4] == Enc(r)[..4];
    }
    if n >= 8 + |r.key| {
      BigEndianValue(|r.payload|, 4);
      var k := |r.key|;
      assert file[off + 4..off + 4 + k] == Enc(r)[4..4 + k];
      assert file[off + 4 + k..off + 8 + k] == Enc(r)[4 + k..8 + k];
    }
  }

  /** A file cut off inside its last record: the rebuild finds every complete record, and the torn one
      exactly when its header was written whole; reading the torn one always fails. */
  lemma TornTail(recs: seq<Rec>, r: Rec, n: nat)
    requires AllFit(recs) && Fits(r) && n < |Enc(r)|
    ensures var file, at := Flat(recs) + Enc(r)[..n], |Flat(recs)|;
      && Scan(file, 0) == Entries(recs) + (if n < 8 + |r.key| then [] else [Entry(r.key, at)])
      && Parse(file, at) == None
      && (|r.key| + 4 < LIMIT32 ==> WrappedParse(file, at) == None)
  {
    hide Flat, Entries, Scan, Enc, ParseHeader, WrappedParse, Start;
    var file, at := Flat(recs) + Enc(r)[..n], |Flat(recs)|;
    ScanBefore(recs, 0, Enc(r)[..n]);
    StartOfAll(recs);
    TornHeader(Flat(recs), r, n);
    EncLength(r);
    assert Entries(recs)[0..] == Entries(recs);
    if n < 8 + |r.key| {
      ScanStops(file, at);
    } else {
      var h := Header(r.key, at + 8 + |r.key|, |r.payload|);
      ScanHead(file, at, h);
      ScanStops(file, h.start + h.size);
      assert [Entry(r.key, at)] + [] == [Entry(r.key, at)];
    }
    if |r.key| + 4 < LIMIT32 { TornRead(file, at, r, n); }
  }

  lemma StartOfAll(recs: seq<Rec>)
    ensures Start(recs, 0) == 0
  {
    assert recs[..0] == [];
  }

  lemma TornRead(file: Bytes, at: nat, r: Rec, n: nat)
    requires |r.key| + 4 < LIMIT32 && Parse(file, at) == None
    requires ParseHeader(file, at) == if n < 8 + |r.key| then None
             else Some(Header(r.key, at + 8 + |r.key|, |r.payload|))
    ensures WrappedParse(file, at) == None
  {
    if ParseHeader(file, at).Some? {
      KeyLength(file, at, ParseHeader(file, at).value);
      ReaderAgrees(file, at);
    }
  }

  lemma HugeKeyRefused(r: Rec)
    requires |r.key| == LIMIT32 - 4 && r.payload == []
    ensures Fits(r) && Parse(Enc(r), 0) == Some(r) && WrappedParse(Enc(r), 0) == None
  {
    ParseEnc([], r, []);
    assert [] + Enc(r) + [] == Enc(r);
    var file, h := Enc(r), Header(r.key, LIMIT32 + 4, 0);
    assert |file| == LIMIT32 + 4 && file[0..4] == BigEndian(LIMIT32 - 4, 4);
    Widths();
    BigEndianValue(LIMIT32 - 4, 4);
    hide ParseHeader, Parse, Enc, BigEndian, FromBigEndian, WrappedParse;
    ReaderWraps(file, 0, h);
  }

  /** A complete record with such a key that the reader refuses. */
  lemma ReaderRefusesHugeKey()
    ensures exists r: Rec :: Fits(r) && Parse(Enc(r), 0) == Some(r) && WrappedParse(Enc(r), 0) == None
  {
    hide Fits, Enc, Parse, WrappedParse;
    var r := Rec(seq(LIMIT32 - 4, _ => 0), []);
    HugeKeyRefused(r);
  }
}
