/** The on-disk entry: an 18-byte header with a checksum, the key, a nested keyword block, and
    two data sections. Keywords are ASCII. */
module EntryCodec {
  import opened Wrappers
  import opened Bytes
  import opened Seqs

  type U32 = x: nat | x < LIMIT32

  /** crc32.ChecksumIEEE: any fixed 32-bit function of the bytes. */
  type Checksum = Bytes -> U32

  const HEADER_SIZE := 18
  const MAX_KEY := 65535
  const MAX_KEYWORD := 128
  const MAX_BLOCK := 65535

  datatype Flags = Flags(dataType: Byte, compressed: bool, tombstone: bool)

  datatype Entry = Entry(flags: Flags, key: Bytes, keywords: seq<Bytes>, primary: Bytes, secondary: Bytes)

  // ---------- flags ----------

  /** Bits 0-2 hold the data type, bit 3 the compression flag, bit 4 the tombstone. */
  function EncodeFlags(f: Flags): Byte {
    f.dataType % 8 + (if f.compressed then 8 else 0) + (if f.tombstone then 16 else 0)
  }

  function ParseFlags(b: Byte): Flags {
    Flags(b % 8, b / 8 % 2 == 1, b / 16 % 2 == 1)
  }

  /** Flags survive exactly when the data type fits its three bits. */
  lemma FlagsRoundTrip(f: Flags)
    ensures ParseFlags(EncodeFlags(f)) == f.(dataType := f.dataType % 8)
    ensures ParseFlags(EncodeFlags(f)) == f <==> f.dataType < 8
  {
  }

  // ---------- keywords ----------

  function LowerByte(b: Byte): Byte {
    if 65 <= b <= 90 then b + 32 else b
  }

  /** strings.ToLower on ASCII. */
  function Lower(s: Bytes): (r: Bytes)
    ensures |r| == |s| && forall i :: 0 <= i < |s| ==> r[i] == LowerByte(s[i])
  {
    seq(|s|, i requires 0 <= i < |s| => LowerByte(s[i]))
  }

  function LowerAll(ks: seq<Bytes>): (r: seq<Bytes>)
    ensures |r| == |ks| && forall i :: 0 <= i < |ks| ==> r[i] == Lower(ks[i])
  {
    seq(|ks|, i requires 0 <= i < |ks| => Lower(ks[i]))
  }

  /** a-z, 0-9, underscore and dash. */
  predicate KeywordByte(b: Byte) {
    97 <= b <= 122 || 48 <= b <= 57 || b == 95 || b == 45
  }

  predicate ValidKeyword(k: Bytes) {
    0 < |k| <= MAX_KEYWORD && forall i :: 0 <= i < |k| ==> KeywordByte(LowerByte(k[i]))
  }

  lemma LowerTwice(s: Bytes)
    ensures Lower(Lower(s)) == Lower(s)
  {
  }

  lemma LowerAllTwice(ks: seq<Bytes>)
    ensures LowerAll(LowerAll(ks)) == LowerAll(ks)
  {
    forall i | 0 <= i < |ks| ensures LowerAll(LowerAll(ks))[i] == LowerAll(ks)[i] { LowerTwice(ks[i]); }
  }

  /** Length-prefixed keywords, one after another. */
  function Block(ks: seq<Bytes>): Bytes {
    if ks == [] then [] else Block(ks[..|ks| - 1]) + [|ks[|ks| - 1]| % 256] + ks[|ks| - 1]
  }

  predicate AllValid(ks: seq<Bytes>) {
    forall i :: 0 <= i < |ks| ==> ValidKeyword(ks[i])
  }

  function KeywordBlock(ks: seq<Bytes>): Option<Bytes> {
    if |ks| > 65535 || !AllValid(ks) || 2 + |Block(LowerAll(ks))| > MAX_BLOCK then None
    else Some(BigEndian(|ks|, 2) + Block(LowerAll(ks)))
  }

  lemma LowerValid(k: Bytes)
    ensures ValidKeyword(Lower(k)) <==> ValidKeyword(k)
  {
    LowerTwice(k);
  }

  lemma BlockSnoc(ks: seq<Bytes>, n: nat)
    requires n < |ks|
    ensures Block(LowerAll(ks[..n + 1])) == Block(LowerAll(ks[..n])) + [|Lower(ks[n])| % 256] + Lower(ks[n])
  {
    assert LowerAll(ks[..n + 1])[..n] == LowerAll(ks[..n]);
  }

  lemma NoKeywordsYet(ks: seq<Bytes>)
    ensures Block(LowerAll(ks[..0])) == []
  {
  }

  lemma Regroup(a: Bytes, b: Bytes, c: Bytes, d: Bytes)
    ensures a + b + c + d == a + (b + c + d)
  {
  }

  method EncodeKeywords(ks: seq<Bytes>) returns (r: Option<Bytes>)
    ensures r == KeywordBlock(ks)
  {
    hide Block, BigEndian, ValidKeyword, Lower, LowerAll;
    if |ks| > 65535 { return None; }
    var buf := BigEndian(|ks|, 2);
    NoKeywordsYet(ks);
    for n := 0 to |ks|
      invariant buf == BigEndian(|ks|, 2) + Block(LowerAll(ks[..n]))
      invariant forall i :: 0 <= i < n ==> ValidKeyword(ks[i])
    {
      var normalized := Lower(ks[n]);
      LowerValid(ks[n]);
      if !ValidKeyword(normalized) { return None; }
      BlockSnoc(ks, n);
      Regroup(BigEndian(|ks|, 2), Block(LowerAll(ks[..n])), [|normalized| % 256], normalized);
      buf := buf + [|normalized| % 256] + normalized;
    }
    assert ks[..|ks|] == ks;
    if |buf| > MAX_BLOCK { return None; }
    return Some(buf);
  }

  /** One keyword at `pos`: reading at the end is an error, a short read is padded with zeros. */
  function ReadKeyword(data: Bytes, pos: nat): Option<Bytes> {
    if pos + 1 >= |data| then None
    else
      var n := data[pos];
      if pos + 1 + n <= |data| then Some(data[pos + 1..pos + 1 + n])
      else Some(data[pos + 1..] + seq(pos + 1 + n - |data|, _ => 0))
  }

  function ReadKeywords(data: Bytes, pos: nat, count: nat): Option<seq<Bytes>>
    decreases count
  {
    if count == 0 then Some([])
    else match ReadKeyword(data, pos)
      case None => None
      case Some(k) =>
        match ReadKeywords(data, pos + 1 + |k|, count - 1)
        case None => None
        case Some(ks) => Some([k] + ks)
  }

  function ParseKeywords(data: Bytes): Option<seq<Bytes>> {
    if |data| < 2 then None else ReadKeywords(data, 2, FromBigEndian(data[..2]))
  }

  function After(ks: seq<Bytes>, rest: Option<seq<Bytes>>): Option<seq<Bytes>> {
    match rest case None => None case Some(r) => Some(ks + r)
  }

  lemma AfterNext(data: Bytes, ks: seq<Bytes>, pos: nat, count: nat)
    requires count > 0
    ensures match ReadKeyword(data, pos)
      case None => After(ks, ReadKeywords(data, pos, count)) == None
      case Some(k) =>
        After(ks, ReadKeywords(data, pos, count)) == After(ks + [k], ReadKeywords(data, pos + 1 + |k|, count - 1))
  {
    hide ReadKeyword;
    match ReadKeyword(data, pos)
    case None =>
    case Some(k) =>
      match ReadKeywords(data, pos + 1 + |k|, count - 1)
      case None =>
      case Some(rest) => assert ks + ([k] + rest) == ks + [k] + rest;
  }

  method DecodeKeywords(data: Bytes) returns (r: Option<seq<Bytes>>)
    ensures r == ParseKeywords(data)
  {
    if |data| < 2 { return None; }
    var count := FromBigEndian(data[..2]);
    var pos: nat, ks: seq<Bytes> := 2, [];
    assert forall rest: seq<Bytes> :: [] + rest == rest;
    for n := 0 to count
      invariant ParseKeywords(data) == After(ks, ReadKeywords(data, pos, count - n))
    {
      var k := ReadKeyword(data, pos);
      AfterNext(data, ks, pos, count - n);
      hide After, ReadKeyword, ReadKeywords, ParseKeywords;
      if k.None? { return None; }
      ks := ks + [k.value];
      pos := pos + 1 + |k.value|;
    }
    assert ks + [] == ks;
    return Some(ks);
  }

  lemma {:induction false} BlockSplit(ks: seq<Bytes>, i: nat) returns (post: Bytes)
    requires i < |ks|
    ensures Block(ks) == Block(ks[..i]) + [|ks[i]| % 256] + ks[i] + post
    ensures Block(ks[..i + 1]) == Block(ks[..i]) + [|ks[i]| % 256] + ks[i]
  {
    assert ks[..i + 1][..i] == ks[..i];
    if i == |ks| - 1 {
      post := [];
      assert ks[..i + 1] == ks;
    } else {
      var front, last := ks[..|ks| - 1], ks[|ks| - 1];
      var p := BlockSplit(front, i);
      assert front[..i] == ks[..i];
      post := p + [|last| % 256] + last;
    }
  }

  lemma ReadBack(head: Bytes, ks: seq<Bytes>, i: nat)
    requires i < |ks| && 0 < |ks[i]| < 256
    ensures ReadKeyword(head + Block(ks), |head| + |Block(ks[..i])|) == Some(ks[i])
    ensures |Block(ks[..i + 1])| == |Block(ks[..i])| + 1 + |ks[i]|
  {
    var post := BlockSplit(ks, i);
    var data, pos := head + Block(ks), |head| + |Block(ks[..i])|;
    var pre := head + Block(ks[..i]);
    assert data == pre + [|ks[i]| % 256] + ks[i] + post;
    assert data[pos] == |ks[i]|;
    assert data[pos + 1..pos + 1 + |ks[i]|] == ks[i];
  }

  lemma ReadNext(data: Bytes, pos: nat, k: Bytes, rest: seq<Bytes>, count: nat)
    requires count > 0 && ReadKeyword(data, pos) == Some(k)
    requires ReadKeywords(data, pos + 1 + |k|, count - 1) == Some(rest)
    ensures ReadKeywords(data, pos, count) == Some([k] + rest)
  {
    hide ReadKeyword;
  }

  lemma {:induction false} ReadAllBack(head: Bytes, ks: seq<Bytes>, i: nat)
    requires i <= |ks| && forall j :: 0 <= j < |ks| ==> 0 < |ks[j]| < 256
    ensures ReadKeywords(head + Block(ks), |head| + |Block(ks[..i])|, |ks| - i) == Some(ks[i..])
    decreases |ks| - i
  {
    hide Block, ReadKeyword;
    if i == |ks| {
      assert ks[i..] == [];
    } else {
      hide ReadKeywords;
      ReadBack(head, ks, i);
      ReadAllBack(head, ks, i + 1);
      SplitAt(ks, i);
      var data, pos := head + Block(ks), |head| + |Block(ks[..i])|;
      assert pos + 1 + |ks[i]| == |head| + |Block(ks[..i + 1])|;
      ReadNext(data, pos, ks[i], ks[i + 1..], |ks| - i);
    }
  }

  /** Decoding an encoded keyword block gives the keywords in lower case. */
  lemma KeywordsRoundTrip(ks: seq<Bytes>)
    requires KeywordBlock(ks).Some?
    ensures ParseKeywords(KeywordBlock(ks).value) == Some(LowerAll(ks))
  {
    var low, head := LowerAll(ks), BigEndian(|ks|, 2);
    var data := head + Block(low);
    Widths();
    BigEndianValue(|ks|, 2);
    assert data[..2] == head;
    forall j | 0 <= j < |low| ensures 0 < |low[j]| < 256 { assert ValidKeyword(ks[j]); }
    ReadAllBack(head, low, 0);
    assert low[..0] == [] && low[0..] == low;
  }

  // ---------- entries ----------

  /** The encoded entry with `sum` in the checksum field. */
  function Layout(e: Entry, kw: Bytes, sum: nat): Bytes {
    HeaderBytes(e, kw) + BigEndian(sum, 4) + (e.key + kw + e.primary + e.secondary)
  }

  function HeaderBytes(e: Entry, kw: Bytes): (h: Bytes)
    ensures |h| == 14
  {
    [HEADER_SIZE, EncodeFlags(e.flags)] + BigEndian(|e.key|, 2) + BigEndian(|e.primary|, 4)
    + BigEndian(|e.secondary|, 4) + BigEndian(|kw|, 2)
  }

  function Encoded(e: Entry, crc: Checksum): Option<Bytes> {
    match KeywordBlock(e.keywords)
    case None => None
    case Some(kw) => if |e.key| > MAX_KEY then None else Some(Layout(e, kw, crc(Layout(e, kw, 0))))
  }

  method EncodeEntry(e: Entry, crc: Checksum) returns (r: Option<Bytes>)
    ensures r == Encoded(e, crc)
  {
    var kw := EncodeKeywords(e.keywords);
    if kw.None? || |e.key| > MAX_KEY { return None; }
    var buf: Bytes := [HEADER_SIZE, EncodeFlags(e.flags)];
    buf := buf + BigEndian(|e.key|, 2) + BigEndian(|e.primary|, 4) + BigEndian(|e.secondary|, 4)
        + BigEndian(|kw.value|, 2);
    assert buf == HeaderBytes(e, kw.value);
    buf := buf + BigEndian(0, 4);
    buf := buf + (e.key + kw.value + e.primary + e.secondary);
    assert buf == Layout(e, kw.value, 0);
    var sum := crc(buf);
    buf := buf[..14] + BigEndian(sum, 4) + buf[18..];
    assert buf == Layout(e, kw.value, sum);
    return Some(buf);
  }

  datatype Header = Header(headerSize: nat, flags: Byte, keyLen: nat, primaryLen: nat, secondaryLen: nat, kwLen: nat,
                           crc: nat)

  /** DecodeEntryHeader. */
  function DecodeEntryHeader(data: Bytes): (h: Option<Header>)
    ensures h.Some? ==> |data| >= HEADER_SIZE && h.value.headerSize <= |data|
  {
    if |data| < HEADER_SIZE || data[0] > |data| then None
    else Some(Header(data[0], data[1], FromBigEndian(data[2..4]), FromBigEndian(data[4..8]),
                     FromBigEndian(data[8..12]), FromBigEndian(data[12..14]), FromBigEndian(data[14..18])))
  }

  /** The bytes with the checksum field zeroed. */
  function Zeroed(data: Bytes): Bytes
    requires |data| >= HEADER_SIZE
  {
    data[..14] + BigEndian(0, 4) + data[18..]
  }

  function Sections(data: Bytes, h: Header): Option<Entry> {
    var keyEnd := h.headerSize + h.keyLen;
    var kwEnd := keyEnd + h.kwLen;
    var primaryEnd := kwEnd + h.primaryLen;
    var secondaryEnd := primaryEnd + h.secondaryLen;
    if secondaryEnd > |data| then None
    else match ParseKeywords(data[keyEnd..kwEnd])
      case None => None
      case Some(ks) => Some(Entry(ParseFlags(h.flags), data[h.headerSize..keyEnd], ks,
                                  data[kwEnd..primaryEnd], data[primaryEnd..secondaryEnd]))
  }

  function Decoded(data: Bytes, crc: Checksum): Option<Entry> {
    match DecodeEntryHeader(data)
    case None => None
    case Some(h) => if h.crc != crc(Zeroed(data)) then None else Sections(data, h)
  }

  lemma FourZeros()
    ensures BigEndian(0, 4) == [0, 0, 0, 0]
  {
    assert BigEndian(0, 1) == [0];
    assert BigEndian(0, 2) == [0, 0];
    assert BigEndian(0, 3) == [0, 0, 0];
  }

  /** DecodeEntry, on any bytes whatever. */
  method DecodeEntry(data: Bytes, crc: Checksum) returns (r: Option<Entry>)
    ensures r == Decoded(data, crc)
    ensures r.Some? ==>
      |data| >= 18 && FromBigEndian(data[14..18]) == crc(data[..14] + [0, 0, 0, 0] + data[18..])
  {
    assert DecodeEntryHeader(data).Some? ==> DecodeEntryHeader(data).value.crc == FromBigEndian(data[14..18]);
    FourZeros();
    hide ParseKeywords, ParseFlags, BigEndian, FromBigEndian, DecodeEntryHeader;
    var header := DecodeEntryHeader(data);
    if header.None? { return None; }
    var h := header.value;
    var dataCopy := data[..14] + BigEndian(0, 4) + data[18..];
    if h.crc != crc(dataCopy) { return None; }
    var keyStart := h.headerSize;
    var keyEnd := keyStart + h.keyLen;
    var kwEnd := keyEnd + h.kwLen;
    var primaryEnd := kwEnd + h.primaryLen;
    var secondaryEnd := primaryEnd + h.secondaryLen;
    if secondaryEnd > |data| { return None; }
    var keywords := DecodeKeywords(data[keyEnd..kwEnd]);
    if keywords.None? { return None; }
    return Some(Entry(ParseFlags(h.flags), data[keyStart..keyEnd], keywords.value,
                      data[kwEnd..primaryEnd], data[primaryEnd..secondaryEnd]));
  }

  /** What an entry becomes on disk: keywords in lower case, the data type cut to three bits. */
  function Normal(e: Entry): Entry {
    e.(keywords := LowerAll(e.keywords), flags := e.flags.(dataType := e.flags.dataType % 8))
  }

  /** Both data lengths fit their header fields. */
  predicate Fits(e: Entry) {
    |e.primary| < LIMIT32 && |e.secondary| < LIMIT32
  }

  lemma LayoutSlices(e: Entry, kw: Bytes, sum: nat)
    ensures var d := Layout(e, kw, sum);
      && |d| == HEADER_SIZE + |e.key| + |kw| + |e.primary| + |e.secondary|
      && d[..14] == HeaderBytes(e, kw) && d[14..18] == BigEndian(sum, 4)
      && d[18..] == e.key + kw + e.primary + e.secondary
  {
  }

  lemma HeaderSlices(e: Entry, kw: Bytes)
    ensures var h := HeaderBytes(e, kw);
      && h[0] == HEADER_SIZE && h[1] == EncodeFlags(e.flags) && h[2..4] == BigEndian(|e.key|, 2)
      && h[4..8] == BigEndian(|e.primary|, 4) && h[8..12] == BigEndian(|e.secondary|, 4)
      && h[12..14] == BigEndian(|kw|, 2)
  {
    hide BigEndian, EncodeFlags;
    Pieces([HEADER_SIZE, EncodeFlags(e.flags)], BigEndian(|e.key|, 2), BigEndian(|e.primary|, 4),
           BigEndian(|e.secondary|, 4), BigEndian(|kw|, 2));
  }

  lemma Pieces(p: Bytes, a: Bytes, b: Bytes, c: Bytes, d: Bytes)
    requires |p| == 2 && |a| == 2 && |b| == 4 && |c| == 4 && |d| == 2
    ensures var h := p + a + b + c + d;
      h[0] == p[0] && h[1] == p[1] && h[2..4] == a && h[4..8] == b && h[8..12] == c && h[12..14] == d
  {
  }

  lemma HeaderRead(e: Entry, kw: Bytes, sum: U32)
    requires Fits(e) && |e.key| <= MAX_KEY && |kw| <= MAX_BLOCK
    ensures DecodeEntryHeader(Layout(e, kw, sum)) ==
            Some(Header(HEADER_SIZE, EncodeFlags(e.flags), |e.key|, |e.primary|, |e.secondary|, |kw|, sum))
  {
    var d, h := Layout(e, kw, sum), HeaderBytes(e, kw);
    LayoutSlices(e, kw, sum);
    HeaderSlices(e, kw);
    Widths();
    BigEndianValue(|e.key|, 2);
    BigEndianValue(|e.primary|, 4);
    BigEndianValue(|e.secondary|, 4);
    BigEndianValue(|kw|, 2);
    BigEndianValue(sum, 4);
    hide Layout, HeaderBytes, BigEndian, FromBigEndian;
    PrefixSlices(d, h);
  }

  lemma PrefixSlices(d: Bytes, h: Bytes)
    requires |h| == 14 && |d| >= 18 && d[..14] == h
    ensures d[0] == h[0] && d[1] == h[1] && d[2..4] == h[2..4] && d[4..8] == h[4..8]
    ensures d[8..12] == h[8..12] && d[12..14] == h[12..14]
  {
    assert h == d[0..14];
    SliceSlice(d, 0, 14, 2, 4);
    SliceSlice(d, 0, 14, 4, 8);
    SliceSlice(d, 0, 14, 8, 12);
    SliceSlice(d, 0, 14, 12, 14);
    assert d[0] == d[..14][0] && d[1] == d[..14][1];
  }

  lemma ZeroedLayout(e: Entry, kw: Bytes, sum: nat)
    ensures |Layout(e, kw, sum)| >= HEADER_SIZE
    ensures Zeroed(Layout(e, kw, sum)) == Layout(e, kw, 0)
  {
    LayoutSlices(e, kw, sum);
  }

  lemma BodySlices(a: Bytes, b: Bytes, c: Bytes, d: Bytes, head: Bytes)
    ensures var all := head + (a + b + c + d);
      var i, j, k := |head| + |a|, |head| + |a| + |b|, |head| + |a| + |b| + |c|;
      && all[|head|..i] == a && all[i..j] == b && all[j..k] == c && all[k..] == d
  {
  }

  lemma LayoutSections(e: Entry, kw: Bytes, sum: nat)
    ensures var d := Layout(e, kw, sum);
      var i, j, k := 18 + |e.key|, 18 + |e.key| + |kw|, 18 + |e.key| + |kw| + |e.primary|;
      && |d| == k + |e.secondary|
      && d[18..i] == e.key && d[i..j] == kw && d[j..k] == e.primary && d[k..|d|] == e.secondary
  {
    hide BigEndian, HeaderBytes;
    BodySlices(e.key, kw, e.primary, e.secondary, HeaderBytes(e, kw) + BigEndian(sum, 4));
  }

  lemma SectionsRead(e: Entry, kw: Bytes, sum: nat, h: Header)
    requires h.headerSize == HEADER_SIZE && h.flags == EncodeFlags(e.flags) && h.keyLen == |e.key| && h.kwLen == |kw|
    requires h.primaryLen == |e.primary| && h.secondaryLen == |e.secondary|
    requires ParseKeywords(kw) == Some(LowerAll(e.keywords))
    ensures Sections(Layout(e, kw, sum), h) == Some(Normal(e))
  {
    hide Layout, ParseKeywords, EncodeFlags, ParseFlags, LowerAll;
    LayoutSections(e, kw, sum);
    FlagsRoundTrip(e.flags);
  }

  /** Everything that encodes decodes to its normal form, for any checksum. */
  lemma EntryRoundTrip(e: Entry, crc: Checksum)
    requires Encoded(e, crc).Some? && Fits(e)
    ensures Decoded(Encoded(e, crc).value, crc) == Some(Normal(e))
  {
    var kw := KeywordBlock(e.keywords).value;
    BlockSize(e.keywords);
    hide Layout, ParseKeywords, DecodeEntryHeader, Zeroed, Sections, KeywordBlock, Normal;
    var sum := crc(Layout(e, kw, 0));
    HeaderRead(e, kw, sum);
    ZeroedLayout(e, kw, sum);
    KeywordsRoundTrip(e.keywords);
    SectionsRead(e, kw, sum, DecodeEntryHeader(Layout(e, kw, sum)).value);
  }

  lemma BlockSize(ks: seq<Bytes>)
    requires KeywordBlock(ks).Some?
    ensures |KeywordBlock(ks).value| <= MAX_BLOCK
  {
  }

  lemma DecodedFits(data: Bytes, crc: Checksum)
    requires Decoded(data, crc).Some?
    ensures Fits(Decoded(data, crc).value)
  {
    Widths();
  }

  /** The exact condition: the two data lengths must fit their 32-bit fields. */
  lemma RoundTripIffFits(e: Entry, crc: Checksum)
    requires Encoded(e, crc).Some?
    ensures Decoded(Encoded(e, crc).value, crc) == Some(Normal(e)) <==> Fits(e)
  {
    hide Encoded, Decoded;
    if Fits(e) { EntryRoundTrip(e, crc); }
    if Decoded(Encoded(e, crc).value, crc) == Some(Normal(e)) { DecodedFits(Encoded(e, crc).value, crc); }
  }

  lemma NormalValid(ks: seq<Bytes>)
    ensures KeywordBlock(LowerAll(ks)) == KeywordBlock(ks)
  {
    LowerAllTwice(ks);
    assert AllValid(ks) <==> AllValid(LowerAll(ks)) by {
      forall i | 0 <= i < |ks| ensures ValidKeyword(ks[i]) <==> ValidKeyword(LowerAll(ks)[i]) {
        LowerTwice(ks[i]);
      }
    }
  }

  /** Encoding the decoded entry gives the same bytes. */
  lemma ReEncode(e: Entry, crc: Checksum)
    ensures Encoded(Normal(e), crc) == Encoded(e, crc)
  {
    NormalValid(e.keywords);
    hide KeywordBlock, BigEndian;
    if KeywordBlock(e.keywords).Some? {
      var kw := KeywordBlock(e.keywords).value;
      assert HeaderBytes(Normal(e), kw) == HeaderBytes(e, kw);
    }
  }

  /** CalculateTotalSize. */
  method CalculateTotalSize(e: Entry) returns (r: Option<nat>)
    ensures r.Some? <==> KeywordBlock(e.keywords).Some?
    ensures r.Some? ==> r.value == |Layout(e, KeywordBlock(e.keywords).value, 0)|
    ensures forall crc: Checksum :: Encoded(e, crc).Some? ==> r == Some(|Encoded(e, crc).value|)
  {
    var kw := EncodeKeywords(e.keywords);
    if kw.None? { return None; }
    LayoutSlices(e, kw.value, 0);
    forall crc: Checksum | Encoded(e, crc).Some?
      ensures |Encoded(e, crc).value| == HEADER_SIZE + |e.key| + |kw.value| + |e.primary| + |e.secondary|
    {
      LayoutSlices(e, kw.value, crc(Layout(e, kw.value, 0)));
    }
    return Some(HEADER_SIZE + |e.key| + |kw.value| + |e.primary| + |e.secondary|);
  }

  // ---------- vector ids ----------

  /** VectorIDToBytes. */
  function VectorIdToBytes(id: nat): Bytes {
    BigEndian(id, 8)
  }

  /** BytesToVectorID. */
  function BytesToVectorId(data: Bytes): Option<nat> {
    if |data| != 8 then None else Some(FromBigEndian(data))
  }

  lemma VectorIdRoundTrip(id: nat)
    requires id < 0x1_0000_0000_0000_0000
    ensures BytesToVectorId(VectorIdToBytes(id)) == Some(id)
  {
    Widths();
    BigEndianValue(id, 8);
  }
}
