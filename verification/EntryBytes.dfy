/** The entry codec, byte by byte: what stands where, which bytes decode, what a damaged entry gives, and
    what happens to the case of keywords. */
module EntryBytes {
  import opened Wrappers
  import opened Bytes
  import opened EntryCodec

  // ---------- the case of letters ----------

  /** The strings differ at most in the case of ASCII letters. */
  predicate SameButCase(s: Bytes, t: Bytes) {
    && |s| == |t|
    && forall i :: 0 <= i < |s| ==>
        s[i] == t[i] || (65 <= s[i] <= 90 && t[i] == s[i] + 32) || (65 <= t[i] <= 90 && s[i] == t[i] + 32)
  }

  /** Lower-casing identifies exactly the strings that differ in case alone. */
  lemma LowerIffSame(s: Bytes, t: Bytes)
    ensures Lower(s) == Lower(t) <==> SameButCase(s, t)
  {
    if Lower(s) == Lower(t) {
      forall i | 0 <= i < |s| ensures LowerByte(s[i]) == LowerByte(t[i]) { assert Lower(s)[i] == Lower(t)[i]; }
    }
  }

  /** Lists of keywords that differ in case alone. */
  ghost predicate AllSameButCase(ks: seq<Bytes>, ls: seq<Bytes>) {
    |ks| == |ls| && forall i :: 0 <= i < |ks| ==> SameButCase(ks[i], ls[i])
  }

  lemma LowerAllSame(ks: seq<Bytes>, ls: seq<Bytes>)
    requires AllSameButCase(ks, ls)
    ensures LowerAll(ks) == LowerAll(ls)
  {
    forall i | 0 <= i < |ks| ensures Lower(ks[i]) == Lower(ls[i]) { LowerIffSame(ks[i], ls[i]); }
  }

  /** Keywords that differ in case alone encode to the same block, or are refused together. */
  lemma EncodeIgnoresCase(ks: seq<Bytes>, ls: seq<Bytes>)
    requires AllSameButCase(ks, ls)
    ensures KeywordBlock(ks) == KeywordBlock(ls)
  {
    LowerAllSame(ks, ls);
    NormalValid(ks);
    NormalValid(ls);
    hide KeywordBlock;
  }

  /** A block decodes to its keywords, each letter for letter with capitals made small. */
  lemma DecodedKeywords(ks: seq<Bytes>, i: nat, j: nat)
    requires KeywordBlock(ks).Some? && i < |ks| && j < |ks[i]|
    ensures ParseKeywords(KeywordBlock(ks).value).Some?
    ensures var ds := ParseKeywords(KeywordBlock(ks).value).value;
      && |ds| == |ks| && |ds[i]| == |ks[i]|
      && ds[i][j] == if 65 <= ks[i][j] <= 90 then ks[i][j] + 32 else ks[i][j]
  {
    KeywordsRoundTrip(ks);
    hide KeywordBlock, ParseKeywords;
    assert LowerAll(ks)[i] == Lower(ks[i]);
  }

  // ---------- which keywords encode ----------

  /** An ASCII letter of either case, a digit, an underscore or a dash. */
  predicate WordByte(b: Byte) {
    'a' as int <= b <= 'z' as int || 'A' as int <= b <= 'Z' as int || '0' as int <= b <= '9' as int
    || b == '_' as int || b == '-' as int
  }

  function TotalLength(ks: seq<Bytes>): nat {
    if ks == [] then 0 else TotalLength(ks[..|ks| - 1]) + |ks[|ks| - 1]|
  }

  lemma {:induction false} BlockLength(ks: seq<Bytes>)
    ensures |Block(LowerAll(ks))| == |ks| + TotalLength(ks)
  {
    if ks != [] {
      var n := |ks| - 1;
      BlockLength(ks[..n]);
      BlockSnoc(ks, n);
      assert ks[..n + 1] == ks;
      hide Block;
    } else {
      assert LowerAll(ks) == [];
    }
  }

  lemma ValidIff(k: Bytes)
    ensures ValidKeyword(k) <==> 1 <= |k| <= 128 && forall i :: 0 <= i < |k| ==> WordByte(k[i])
  {
    forall b: Byte ensures KeywordByte(LowerByte(b)) <==> WordByte(b) {}
    assert forall i :: 0 <= i < |k| ==> (KeywordByte(LowerByte(k[i])) <==> WordByte(k[i]));
  }

  /** Keywords encode exactly when each has 1 to 128 letters, digits, underscores or dashes, and their
      number and their total length with a length byte each fit 16 bits. */
  lemma KeywordsEncodeIff(ks: seq<Bytes>)
    ensures KeywordBlock(ks).Some? <==>
      && |ks| <= 65535 && 2 + |ks| + TotalLength(ks) <= 65535
      && forall i :: 0 <= i < |ks| ==> 1 <= |ks[i]| <= 128 && forall j :: 0 <= j < |ks[i]| ==> WordByte(ks[i][j])
  {
    BlockLength(ks);
    forall i | 0 <= i < |ks|
      ensures ValidKeyword(ks[i]) <==> 1 <= |ks[i]| <= 128 && forall j :: 0 <= j < |ks[i]| ==> WordByte(ks[i][j])
    {
      ValidIff(ks[i]);
    }
    hide Block, TotalLength, ValidKeyword;
  }

  /** The keyword block: the count in two bytes, then each keyword in lower case behind its length. */
  lemma KeywordAt(ks: seq<Bytes>, i: nat)
    requires KeywordBlock(ks).Some? && i < |ks|
    ensures var data, at := KeywordBlock(ks).value, 2 + i + TotalLength(ks[..i]);
      && |data| >= at + 1 + |ks[i]| && FromBigEndian(data[..2]) == |ks|
      && data[at] == |ks[i]| && data[at + 1..at + 1 + |ks[i]|] == Lower(ks[i])
  {
    hide *;
    var low, head := LowerAll(ks), BigEndian(|ks|, 2);
    BlockIs(ks, i);
    var post := BlockSplit(low, i);
    LowerFront(ks, i);
    BlockLength(ks[..i]);
    KeywordPieces(head, Block(low[..i]), [|low[i]| % 256], low[i], post);
  }

  lemma LowerFront(ks: seq<Bytes>, i: nat)
    requires i <= |ks|
    ensures LowerAll(ks)[..i] == LowerAll(ks[..i])
  {
  }

  lemma BlockIs(ks: seq<Bytes>, i: nat)
    requires KeywordBlock(ks).Some? && i < |ks|
    ensures KeywordBlock(ks).value == BigEndian(|ks|, 2) + Block(LowerAll(ks))
    ensures FromBigEndian(BigEndian(|ks|, 2)) == |ks| && |ks[i]| < 256
  {
    assert ValidKeyword(ks[i]);
    hide Block, BigEndian, FromBigEndian;
    Widths();
    BigEndianValue(|ks|, 2);
  }

  lemma KeywordPieces(head: Bytes, before: Bytes, size: Bytes, k: Bytes, post: Bytes)
    requires |head| == 2 && |size| == 1
    ensures var data, at := head + (before + size + k + post), 2 + |before|;
      && |data| >= at + 1 + |k| && data[..2] == head && data[at] == size[0] && data[at + 1..at + 1 + |k|] == k
  {
  }

  /** A keyword cut off by the end of the block is filled up with zeros; a length with nothing behind it
      is an error. */
  lemma CutKeyword(n: Byte, part: Bytes)
    requires |part| <= n
    ensures ParseKeywords([0, 1, n] + part) == if part == [] then None else Some([part + seq(n - |part|, _ => 0)])
  {
    var data: Bytes := [0, 1, n] + part;
    assert data[..2] == [0, 1] && FromBigEndian([0, 1]) == 1 by {
      assert [0, 1][..1] == [0] && [0][..0] == [];
      assert FromBigEndian([0]) == 0;
    }
    assert data[2] == n && data[3..] == part;
    if part != [] {
      var k := part + seq(n - |part|, _ => 0);
      assert ReadKeyword(data, 2) == Some(k) by {
        if |part| == n {
          assert data[3..3 + n] == part == k;
        }
      }
      assert ReadKeywords(data, 3 + |k|, 0) == Some([]);
      assert [k] + [] == [k];
    }
  }

  // ---------- where everything stands ----------

  /** Bits 0 to 2, bit 3 and bit 4 of the flag byte. */
  lemma FlagBits(f: Flags)
    ensures var b := EncodeFlags(f);
      b < 32 && b % 8 == f.dataType % 8 && (b / 8 % 2 == 1 <==> f.compressed) && (b / 16 % 2 == 1 <==> f.tombstone)
  {
  }

  /** An entry encodes exactly when its keywords do and its key has at most 65535 bytes. */
  lemma EntryEncodesIff(e: Entry, crc: Checksum)
    ensures Encoded(e, crc).Some? <==> KeywordBlock(e.keywords).Some? && |e.key| <= 65535
  {
    hide KeywordBlock, Layout;
  }

  /** The bytes of an encoded entry: header fields, then key, keyword block, primary and secondary data. */
  lemma EncodedBytes(e: Entry, crc: Checksum)
    requires Encoded(e, crc).Some?
    ensures KeywordBlock(e.keywords).Some? && |e.key| <= 65535
    ensures var d, kw := Encoded(e, crc).value, KeywordBlock(e.keywords).value;
      var i, j, k := 18 + |e.key|, 18 + |e.key| + |kw|, 18 + |e.key| + |kw| + |e.primary|;
      && |d| == k + |e.secondary| && d[0] == 18 && d[1] == EncodeFlags(e.flags)
      && d[2..4] == BigEndian(|e.key|, 2) && d[4..8] == BigEndian(|e.primary|, 4)
      && d[8..12] == BigEndian(|e.secondary|, 4) && d[12..14] == BigEndian(|kw|, 2)
      && d[14..18] == BigEndian(crc(d[..14] + [0, 0, 0, 0] + d[18..]), 4)
      && d[18..i] == e.key && d[i..j] == kw && d[j..k] == e.primary && d[k..] == e.secondary
  {
    hide *;
    var kw := EncodedIs(e, crc);
    var sum := crc(Layout(e, kw, 0));
    LayoutSections(e, kw, sum);
    LayoutHeader(e, kw, sum);
    LayoutChecksum(e, kw, sum);
    LayoutEnd(Layout(e, kw, sum), 18 + |e.key| + |kw| + |e.primary|);
  }

  lemma EncodedIs(e: Entry, crc: Checksum) returns (kw: Bytes)
    requires Encoded(e, crc).Some?
    ensures KeywordBlock(e.keywords) == Some(kw) && |e.key| <= 65535
    ensures Encoded(e, crc).value == Layout(e, kw, crc(Layout(e, kw, 0)))
  {
    hide KeywordBlock, Layout;
    kw := KeywordBlock(e.keywords).value;
  }

  lemma LayoutEnd(d: Bytes, k: nat)
    requires k <= |d|
    ensures d[k..|d|] == d[k..]
  {
  }

  lemma LayoutHeader(e: Entry, kw: Bytes, sum: nat)
    ensures var d := Layout(e, kw, sum);
      && |d| >= 18 && d[0] == 18 && d[1] == EncodeFlags(e.flags) && d[2..4] == BigEndian(|e.key|, 2)
      && d[4..8] == BigEndian(|e.primary|, 4) && d[8..12] == BigEndian(|e.secondary|, 4)
      && d[12..14] == BigEndian(|kw|, 2) && d[14..18] == BigEndian(sum, 4)
  {
    hide Layout, HeaderBytes, BigEndian, EncodeFlags;
    LayoutSlices(e, kw, sum);
    HeaderSlices(e, kw);
    PrefixSlices(Layout(e, kw, sum), HeaderBytes(e, kw));
  }

  lemma LayoutChecksum(e: Entry, kw: Bytes, sum: nat)
    ensures var d := Layout(e, kw, sum);
      |d| >= 18 && d[..14] + [0, 0, 0, 0] + d[18..] == Layout(e, kw, 0)
  {
    hide Layout, BigEndian;
    ZeroedLayout(e, kw, sum);
    FourZeros();
  }

  // ---------- which bytes decode ----------

  /** The stored checksum is that of the bytes with the checksum field cleared. */
  ghost predicate ChecksumHolds(data: Bytes, crc: Checksum)
    requires |data| >= 18
  {
    FromBigEndian(data[14..18]) == crc(data[..14] + [0, 0, 0, 0] + data[18..])
  }

  /** Any bytes: DecodeEntry succeeds exactly when the header is there, the checksum holds, the four
      sections lie within the data and the keyword block parses. */
  lemma DecodesIff(data: Bytes, crc: Checksum)
    ensures Decoded(data, crc).Some? <==>
      && |data| >= 18 && data[0] <= |data| && ChecksumHolds(data, crc)
      && var i := data[0] + FromBigEndian(data[2..4]);
        var j := i + FromBigEndian(data[12..14]);
        && j + FromBigEndian(data[4..8]) + FromBigEndian(data[8..12]) <= |data|
        && ParseKeywords(data[i..j]).Some?
  {
    hide ParseKeywords, FromBigEndian, BigEndian, ParseFlags;
    FourZeros();
  }

  /** And then it gives those sections, the flags and the keywords. */
  lemma DecodedSections(data: Bytes, crc: Checksum)
    requires Decoded(data, crc).Some?
    ensures |data| >= 18
    ensures var i := data[0] + FromBigEndian(data[2..4]);
      var j := i + FromBigEndian(data[12..14]);
      var k := j + FromBigEndian(data[4..8]);
      var l := k + FromBigEndian(data[8..12]);
      var e := Decoded(data, crc).value;
      && data[0] <= i <= j <= k <= l <= |data|
      && e.key == data[data[0]..i] && ParseKeywords(data[i..j]) == Some(e.keywords)
      && e.primary == data[j..k] && e.secondary == data[k..l]
      && e.flags.dataType == data[1] % 8 && (e.flags.compressed <==> data[1] / 8 % 2 == 1)
      && (e.flags.tombstone <==> data[1] / 16 % 2 == 1)
  {
    hide *;
    var h := DecodedHeader(data, crc);
    SectionSlices(data, h);
    ParsedFlags(data[1]);
  }

  lemma DecodedHeader(data: Bytes, crc: Checksum) returns (h: Header)
    requires Decoded(data, crc).Some?
    ensures |data| >= 18 && Sections(data, h) == Decoded(data, crc)
    ensures h.headerSize == data[0] && h.flags == data[1] && h.keyLen == FromBigEndian(data[2..4])
    ensures h.primaryLen == FromBigEndian(data[4..8]) && h.secondaryLen == FromBigEndian(data[8..12])
    ensures h.kwLen == FromBigEndian(data[12..14])
  {
    hide Sections, FromBigEndian, Zeroed;
    h := DecodeEntryHeader(data).value;
  }

  lemma SectionSlices(data: Bytes, h: Header)
    requires Sections(data, h).Some?
    ensures var i := h.headerSize + h.keyLen;
      var j := i + h.kwLen;
      var k := j + h.primaryLen;
      var l := k + h.secondaryLen;
      var e := Sections(data, h).value;
      && l <= |data| && e.key == data[h.headerSize..i] && ParseKeywords(data[i..j]) == Some(e.keywords)
      && e.primary == data[j..k] && e.secondary == data[k..l] && e.flags == ParseFlags(h.flags)
  {
    hide ParseKeywords, ParseFlags;
  }

  lemma ParsedFlags(b: Byte)
    ensures var f := ParseFlags(b);
      f.dataType == b % 8 && (f.compressed <==> b / 8 % 2 == 1) && (f.tombstone <==> b / 16 % 2 == 1)
  {
  }

  /** A damaged entry is refused by every checksum that tells the two byte strings apart. */
  lemma DamageRefused(data: Bytes, bad: Bytes, crc: Checksum)
    requires Decoded(data, crc).Some? && |bad| >= 18 && bad[14..18] == data[14..18]
    requires |data| >= 18 && crc(bad[..14] + [0, 0, 0, 0] + bad[18..]) != crc(data[..14] + [0, 0, 0, 0] + data[18..])
    ensures Decoded(bad, crc) == None
  {
    hide Decoded, FromBigEndian, ParseKeywords;
    DecodesIff(data, crc);
    DecodesIff(bad, crc);
  }

  /** And by every checksum whatever if only the stored checksum is damaged. */
  lemma DamagedChecksumRefused(data: Bytes, sum: Bytes, crc: Checksum)
    requires Decoded(data, crc).Some? && |data| >= 18 && |sum| == 4 && sum != data[14..18]
    ensures Decoded(data[..14] + sum + data[18..], crc) == None
  {
    hide Decoded, FromBigEndian, ParseKeywords;
    var bad := data[..14] + sum + data[18..];
    assert bad[..14] == data[..14] && bad[14..18] == sum && bad[18..] == data[18..];
    DecodesIff(data, crc);
    DecodesIff(bad, crc);
    if FromBigEndian(sum) == FromBigEndian(data[14..18]) { BigEndianInjective(sum, data[14..18]); }
  }
}
