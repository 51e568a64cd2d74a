/** The trigram index: posting lists, the four search modes, and what add-only histories make
    them return. Keywords and queries are ASCII. */
module KeywordIndex {
  import opened Wrappers
  import opened Bytes
  import opened Seqs
  import opened EntryCodec
  import Levenshtein

  type Postings = map<Bytes, seq<nat>>

  const KW: Bytes := [107, 119, 58] // "kw:"

  function KwKey(keyword: Bytes): Bytes {
    KW + keyword
  }

  /** The three-byte windows of a string. */
  function Windows(s: Bytes): (r: seq<Bytes>)
    requires |s| >= 3
    ensures |r| == |s| - 2 && forall i :: 0 <= i < |r| ==> r[i] == s[i..i + 3]
  {
    seq(|s| - 2, i requires 0 <= i < |s| - 2 => s[i..i + 3])
  }

  /** GenerateTrigrams; a short keyword is its own trigram. */
  function Trigrams(keyword: Bytes): (r: seq<Bytes>)
    ensures |r| > 0
  {
    var k := Lower(keyword);
    if |k| < 3 then [k] else Windows(k)
  }

  method GenerateTrigrams(keyword: Bytes) returns (r: seq<Bytes>)
    ensures r == Trigrams(keyword)
  {
    var k := Lower(keyword);
    if |k| < 3 { return [k]; }
    r := [];
    var i := 0;
    while i <= |k| - 3
      invariant 0 <= i <= |k| - 2 && r == Windows(k)[..i]
    {
      r := r + [k[i..i + 3]];
      i := i + 1;
    }
  }

  function Lookup(index: Postings, key: Bytes): seq<nat> {
    if key in index then index[key] else []
  }

  function AppendUnique(s: seq<nat>, v: nat): seq<nat> {
    if v in s then s else s + [v]
  }

  /** Post an id under a list of keys. */
  function Post(index: Postings, keys: seq<Bytes>, id: nat): Postings {
    if keys == [] then index
    else
      var p, key := Post(index, keys[..|keys| - 1], id), keys[|keys| - 1];
      p[key := AppendUnique(Lookup(p, key), id)]
  }

  lemma PostSnoc(index: Postings, keys: seq<Bytes>, key: Bytes, id: nat)
    ensures var p := Post(index, keys, id);
      Post(index, keys + [key], id) == p[key := AppendUnique(Lookup(p, key), id)]
  {
    assert (keys + [key])[..|keys|] == keys;
  }

  /** All keys one document is posted under. */
  function DocKeys(keywords: seq<Bytes>): seq<Bytes> {
    if keywords == [] then []
    else DocKeys(keywords[..|keywords| - 1]) + KeywordKeys(keywords[|keywords| - 1])
  }

  function KeywordKeys(keyword: Bytes): seq<Bytes> {
    Trigrams(keyword) + [KwKey(Lower(keyword))]
  }

  // ---------- searching one term ----------

  datatype Mode = Exact | Prefix | Partial | Close(maxDistance: nat)

  predicate HasPrefix(s: Bytes, prefix: Bytes) {
    |prefix| <= |s| && s[..|prefix|] == prefix
  }

  /** The index keys a prefix or Levenshtein scan accepts for a lower-cased term. */
  predicate Accepts(mode: Mode, term: Bytes, key: Bytes) {
    && HasPrefix(key, KW)
    && match mode
      case Prefix => HasPrefix(key[3..], term)
      case Close(d) => Levenshtein.Dist(term, key[3..]) <= d
      case _ => false
  }

  function Gathered(index: Postings, keys: set<Bytes>, mode: Mode, term: Bytes): set<nat> {
    set key, id | key in keys && key in index && Accepts(mode, term, key) && id in index[key] :: id
  }

  /** The ids posted under all of several keys. */
  function PostedUnderAll(index: Postings, keys: seq<Bytes>): set<nat>
    requires |keys| > 0
  {
    if |keys| == 1 then Elems(Lookup(index, keys[0]))
    else PostedUnderAll(index, keys[..|keys| - 1]) * Elems(Lookup(index, keys[|keys| - 1]))
  }

  function TermSet(index: Postings, mode: Mode, term: Bytes): set<nat> {
    match mode
    case Exact => Elems(Lookup(index, KwKey(Lower(term))))
    case Partial => PostedUnderAll(index, Trigrams(Lower(term)))
    case _ => Gathered(index, index.Keys, mode, Lower(term))
  }

  function MeetAll(index: Postings, mode: Mode, terms: seq<Bytes>): set<nat>
    requires |terms| > 0
  {
    if |terms| == 1 then TermSet(index, mode, terms[0])
    else MeetAll(index, mode, terms[..|terms| - 1]) * TermSet(index, mode, terms[|terms| - 1])
  }

  /** No terms give no bit set at all. */
  function Result(index: Postings, mode: Mode, terms: seq<Bytes>): Option<set<nat>> {
    if terms == [] then None else Some(MeetAll(index, mode, terms))
  }

  /** BitSet.Intersect: walk the smaller set. */
  method Intersect(a: set<nat>, b: set<nat>) returns (r: set<nat>)
    ensures r == a * b
  {
    var smaller, larger := if |a| > |b| then b else a, if |a| > |b| then a else b;
    r := {};
    var rest := smaller;
    while rest != {}
      invariant rest <= smaller && r == (smaller - rest) * larger
      decreases rest
    {
      var v :| v in rest;
      rest := rest - {v};
      if v in larger { r := r + {v}; }
    }
  }

  /** NewBitSetFromSlice. */
  method FromSlice(values: seq<nat>) returns (r: set<nat>)
    ensures r == Elems(values)
  {
    r := {};
    for i := 0 to |values|
      invariant r == Elems(values[..i])
    {
      r := r + {values[i]};
    }
    assert values[..|values|] == values;
  }

  class InvertedIndex {
    var index: Postings

    constructor ()
      ensures index == map[]
    {
      index := map[];
    }

    /** Post one keyword: its trigrams, then the keyword itself. */
    method AddKeyword(keyword: Bytes, id: nat, ghost start: Postings, ghost before: seq<Bytes>)
      requires index == Post(start, before, id)
      modifies this
      ensures index == Post(start, before + KeywordKeys(keyword), id)
    {
      hide Post;
      var kw := Lower(keyword);
      LowerTwice(keyword);
      var trigrams := GenerateTrigrams(kw);
      assert before + trigrams[..0] == before;
      for i := 0 to |trigrams|
        invariant index == Post(start, before + trigrams[..i], id)
      {
        PostSnoc(start, before + trigrams[..i], trigrams[i], id);
        assert before + trigrams[..i + 1] == before + trigrams[..i] + [trigrams[i]];
        index := index[trigrams[i] := AppendUnique(Lookup(index, trigrams[i]), id)];
      }
      assert trigrams[..|trigrams|] == trigrams;
      PostSnoc(start, before + trigrams, KwKey(kw), id);
      assert before + KeywordKeys(keyword) == before + trigrams + [KwKey(kw)];
      index := index[KwKey(kw) := AppendUnique(Lookup(index, KwKey(kw)), id)];
    }

    /** Add. */
    method Add(keywords: seq<Bytes>, id: nat)
      modifies this
      ensures index == Post(old(index), DocKeys(keywords), id)
    {
      for n := 0 to |keywords|
        invariant index == Post(old(index), DocKeys(keywords[..n]), id)
      {
        hide Post, KeywordKeys;
        assert keywords[..n + 1][..n] == keywords[..n];
        AddKeyword(keywords[n], id, old(index), DocKeys(keywords[..n]));
      }
      assert keywords[..|keywords|] == keywords;
    }

    /** The candidates of a prefix or Levenshtein term: scan every key, in any order. */
    method ScanKeys(mode: Mode, term: Bytes) returns (r: set<nat>)
      requires mode.Prefix? || mode.Close?
      ensures r == Gathered(index, index.Keys, mode, term)
    {
      r := {};
      var rest := index.Keys;
      while rest != {}
        invariant rest <= index.Keys && r == Gathered(index, index.Keys - rest, mode, term)
        decreases rest
      {
        var key :| key in rest;
        rest := rest - {key};
        var found := AcceptKey(mode, term, key);
        GatherNext(index, index.Keys - rest - {key}, mode, term, key);
        assert index.Keys - rest - {key} + {key} == index.Keys - rest;
        if found {
          var ids := FromSlice(index[key]);
          r := r + ids;
        }
      }
      assert index.Keys - rest == index.Keys;
    }

    method AcceptKey(mode: Mode, term: Bytes, key: Bytes) returns (r: bool)
      requires mode.Prefix? || mode.Close?
      ensures r == Accepts(mode, term, key)
    {
      if !HasPrefix(key, KW) { return false; }
      var keyword := key[3..];
      if mode.Prefix? { return HasPrefix(keyword, term); }
      var d := Levenshtein.LevenshteinDistance(term, keyword);
      return d <= mode.maxDistance;
    }

    /** The candidates of a partial term: intersect the postings of its trigrams. */
    method MeetTrigrams(term: Bytes) returns (r: set<nat>)
      ensures r == PostedUnderAll(index, Trigrams(term))
    {
      var trigrams := GenerateTrigrams(term);
      r := FromSlice(Lookup(index, trigrams[0]));
      for i := 1 to |trigrams|
        invariant r == PostedUnderAll(index, trigrams[..i])
      {
        assert trigrams[..i + 1][..i] == trigrams[..i];
        var other := FromSlice(Lookup(index, trigrams[i]));
        r := Intersect(r, other);
      }
      assert trigrams[..|trigrams|] == trigrams;
    }

    method SearchTerm(mode: Mode, term: Bytes) returns (r: set<nat>)
      ensures r == TermSet(index, mode, term)
    {
      match mode
      case Exact => r := FromSlice(Lookup(index, KwKey(Lower(term))));
      case Partial => r := MeetTrigrams(Lower(term));
      case _ => r := ScanKeys(mode, Lower(term));
    }

    /** The loop the four search methods share: intersect the terms' candidates. */
    method Search(mode: Mode, terms: seq<Bytes>) returns (r: Option<set<nat>>)
      ensures r == Result(index, mode, terms)
    {
      if terms == [] { return None; }
      var result := SearchTerm(mode, terms[0]);
      for i := 1 to |terms|
        invariant result == MeetAll(index, mode, terms[..i])
      {
        assert terms[..i + 1][..i] == terms[..i];
        var candidates := SearchTerm(mode, terms[i]);
        result := Intersect(result, candidates);
      }
      assert terms[..|terms|] == terms;
      return Some(result);
    }
  }

  lemma GatherNext(index: Postings, keys: set<Bytes>, mode: Mode, term: Bytes, key: Bytes)
    requires key in index
    ensures Gathered(index, keys + {key}, mode, term)
         == Gathered(index, keys, mode, term) + (if Accepts(mode, term, key) then Elems(index[key]) else {})
  {
  }

  // ---------- add-only histories ----------

  datatype Doc = Doc(keywords: seq<Bytes>, id: nat)

  function IndexAfter(h: seq<Doc>): Postings {
    if h == [] then map[] else Post(IndexAfter(h[..|h| - 1]), DocKeys(h[|h| - 1].keywords), h[|h| - 1].id)
  }

  ghost predicate ValidHistory(h: seq<Doc>) {
    forall i :: 0 <= i < |h| ==> AllValid(h[i].keywords)
  }

  ghost predicate Posted(h: seq<Doc>, key: Bytes, id: nat) {
    exists i :: 0 <= i < |h| && h[i].id == id && key in DocKeys(h[i].keywords)
  }

  /** Some document of `id` carries a keyword that is `k` in lower case. */
  ghost predicate Carries(h: seq<Doc>, id: nat, k: Bytes) {
    exists i, j :: 0 <= i < |h| && 0 <= j < |h[i].keywords| && h[i].id == id && Lower(h[i].keywords[j]) == k
  }

  lemma {:induction false} PostMember(index: Postings, keys: seq<Bytes>, id: nat, key: Bytes, v: nat)
    ensures v in Lookup(Post(index, keys, id), key) <==> v in Lookup(index, key) || (v == id && key in keys)
  {
    if keys != [] {
      PostMember(index, keys[..|keys| - 1], id, key, v);
      assert keys == keys[..|keys| - 1] + [keys[|keys| - 1]];
    }
  }

  lemma PostedLast(h: seq<Doc>, key: Bytes, id: nat)
    requires h != []
    ensures var front, last := h[..|h| - 1], h[|h| - 1];
      Posted(h, key, id) <==> Posted(front, key, id) || (last.id == id && key in DocKeys(last.keywords))
  {
    hide DocKeys;
    var front := h[..|h| - 1];
    if Posted(front, key, id) {
      var i :| 0 <= i < |front| && front[i].id == id && key in DocKeys(front[i].keywords);
      assert h[i] == front[i];
    }
    if Posted(h, key, id) {
      var i :| 0 <= i < |h| && h[i].id == id && key in DocKeys(h[i].keywords);
      if i < |front| { assert front[i] == h[i]; }
    }
  }

  lemma {:induction false} IndexMember(h: seq<Doc>, key: Bytes, id: nat)
    ensures id in Lookup(IndexAfter(h), key) <==> Posted(h, key, id)
  {
    hide DocKeys;
    if h != [] {
      var front, last := h[..|h| - 1], h[|h| - 1];
      IndexMember(front, key, id);
      PostMember(IndexAfter(front), DocKeys(last.keywords), last.id, key, id);
      PostedLast(h, key, id);
      hide Post, Posted;
    }
  }

  lemma {:induction false} DocKeysMember(keywords: seq<Bytes>, key: Bytes)
    ensures key in DocKeys(keywords) <==> exists j :: 0 <= j < |keywords| && key in KeywordKeys(keywords[j])
  {
    hide KeywordKeys;
    if keywords != [] {
      var front, last := keywords[..|keywords| - 1], keywords[|keywords| - 1];
      DocKeysMember(front, key);
      if j :| 0 <= j < |keywords| && key in KeywordKeys(keywords[j]) {
        assert j < |front| ==> front[j] == keywords[j];
      }
      if j :| 0 <= j < |front| && key in KeywordKeys(front[j]) {
        assert front[j] == keywords[j];
      }
    }
  }

  lemma ValidLower(k: Bytes)
    requires ValidKeyword(k)
    ensures NoColon(Lower(k)) && Lower(k) != []
  {
    forall i | 0 <= i < |k| ensures Lower(k)[i] != 58 { assert KeywordByte(LowerByte(k[i])); }
  }

  lemma TrigramColons(k: Bytes, key: Bytes)
    requires ValidKeyword(k) && key in Trigrams(k)
    ensures NoColon(key)
  {
    ValidLower(k);
    hide ValidKeyword, Lower, NoColon, Windows;
    var low := Lower(k);
    if |low| >= 3 {
      var i :| 0 <= i < |Windows(low)| && Windows(low)[i] == key;
      WindowColons(low, i);
    }
  }

  lemma WindowColons(s: Bytes, i: nat)
    requires NoColon(s) && |s| >= 3 && i < |Windows(s)|
    ensures NoColon(Windows(s)[i])
  {
  }

  lemma TrigramSize(k: Bytes, key: Bytes)
    requires key in Trigrams(k)
    ensures |key| <= 3
  {
  }

  lemma ShortPrefix(key: Bytes)
    requires HasPrefix(key, KW) && |key| <= 3
    ensures key == KW && key[3..] == []
  {
  }

  /** The key spaces of a keyword do not meet, that is "kw:"+keyword is its only key with the prefix
      "kw:", exactly when "kw:" is none of its trigrams. */
  lemma KwKeysApart(k: Bytes)
    ensures (forall key :: HasPrefix(key, KW) ==> (key in KeywordKeys(k) <==> key == KwKey(Lower(k)))) <==>
            KW !in Trigrams(k)
  {
    if KW !in Trigrams(k) {
      forall key | HasPrefix(key, KW) ensures key in KeywordKeys(k) <==> key == KwKey(Lower(k)) {
        if key in Trigrams(k) {
          TrigramSize(k, key);
          ShortPrefix(key);
        }
      }
    } else {
      assert HasPrefix(KW, KW) && KW in KeywordKeys(k);
      assert Lower(k) != [];
    }
  }

  /** The one key shared between keywords: "kw:" is posted for a keyword exactly when the keyword is
      empty or has that trigram; a valid keyword never. */
  lemma SharedKey(k: Bytes)
    ensures KW in KeywordKeys(k) <==> k == [] || KW in Trigrams(k)
    ensures ValidKeyword(k) ==> KW !in KeywordKeys(k)
  {
    assert KwKey(Lower(k)) == KW <==> Lower(k) == [];
    assert !NoColon(KW) by { assert KW[2] == COLON; }
    if ValidKeyword(k) && KW in Trigrams(k) { TrigramColons(k, KW); }
  }

  // ---------- what is posted ----------

  ghost predicate CarriesTrigram(h: seq<Doc>, id: nat, tg: Bytes) {
    exists k :: Carries(h, id, k) && tg in Trigrams(k)
  }

  lemma KeysOfLower(k: Bytes, key: Bytes)
    ensures key in KeywordKeys(k) <==> key in Trigrams(Lower(k)) || (HasPrefix(key, KW) && key[3..] == Lower(k))
  {
    LowerTwice(k);
    assert HasPrefix(key, KW) ==> key == KW + key[3..];
    assert KwKey(Lower(k))[..3] == KW && KwKey(Lower(k))[3..] == Lower(k);
  }

  /** A key is posted for the ids with a keyword that has it as a trigram, or that it names. */
  lemma KeyPosted(h: seq<Doc>, key: Bytes, id: nat)
    ensures id in Lookup(IndexAfter(h), key) <==>
            CarriesTrigram(h, id, key) || (HasPrefix(key, KW) && Carries(h, id, key[3..]))
  {
    IndexMember(h, key, id);
    hide IndexAfter, KeywordKeys, Trigrams, DocKeys;
    if Posted(h, key, id) {
      var i :| 0 <= i < |h| && h[i].id == id && key in DocKeys(h[i].keywords);
      DocKeysMember(h[i].keywords, key);
      var j :| 0 <= j < |h[i].keywords| && key in KeywordKeys(h[i].keywords[j]);
      KeysOfLower(h[i].keywords[j], key);
      assert Carries(h, id, Lower(h[i].keywords[j]));
    }
    forall k | Carries(h, id, k) && (key in Trigrams(k) || (HasPrefix(key, KW) && key[3..] == k))
      ensures Posted(h, key, id)
    {
      var i, j :| 0 <= i < |h| && 0 <= j < |h[i].keywords| && h[i].id == id && Lower(h[i].keywords[j]) == k;
      KeysOfLower(h[i].keywords[j], key);
      DocKeysMember(h[i].keywords, key);
    }
  }

  /** `k` stands in the index for `id`: carried, or empty and named by the trigram "kw:". */
  ghost predicate Named(h: seq<Doc>, id: nat, k: Bytes) {
    Carries(h, id, k) || (k == [] && CarriesTrigram(h, id, KW))
  }

  /** `tg` stands in the index for `id`: carried, or "kw:" through the empty keyword. */
  ghost predicate Grams(h: seq<Doc>, id: nat, tg: Bytes) {
    CarriesTrigram(h, id, tg) || (tg == KW && Carries(h, id, []))
  }

  lemma KwPosted(h: seq<Doc>, key: Bytes, id: nat)
    requires HasPrefix(key, KW)
    ensures id in Lookup(IndexAfter(h), key) <==> Named(h, id, key[3..])
  {
    hide IndexAfter, Carries, Trigrams;
    KeyPosted(h, key, id);
    if k :| Carries(h, id, k) && key in Trigrams(k) {
      TrigramSize(k, key);
      ShortPrefix(key);
    }
    assert key[3..] == [] ==> key == KW + [] == KW;
  }

  lemma TrigramPosted(h: seq<Doc>, key: Bytes, id: nat)
    requires |key| <= 3
    ensures id in Lookup(IndexAfter(h), key) <==> Grams(h, id, key)
  {
    hide IndexAfter, Carries, CarriesTrigram;
    KeyPosted(h, key, id);
    if HasPrefix(key, KW) { ShortPrefix(key); }
    assert HasPrefix(KW, KW) && KW[3..] == [];
  }

  lemma {:induction false} MeetMember(index: Postings, mode: Mode, terms: seq<Bytes>, id: nat)
    requires |terms| > 0
    ensures id in MeetAll(index, mode, terms) <==> forall i :: 0 <= i < |terms| ==> id in TermSet(index, mode, terms[i])
  {
    hide TermSet;
    if |terms| > 1 {
      MeetMember(index, mode, terms[..|terms| - 1], id);
      SplitLast(terms);
    }
  }

  lemma {:induction false} PostedMember(index: Postings, keys: seq<Bytes>, id: nat)
    requires |keys| > 0
    ensures id in PostedUnderAll(index, keys) <==> forall i :: 0 <= i < |keys| ==> id in Lookup(index, keys[i])
  {
    if |keys| > 1 {
      PostedMember(index, keys[..|keys| - 1], id);
    }
  }

  lemma ExactTerm(h: seq<Doc>, term: Bytes, id: nat)
    ensures id in TermSet(IndexAfter(h), Exact, term) <==> Named(h, id, Lower(term))
  {
    KwKeyParts(Lower(term));
    hide IndexAfter, Named;
    KwPosted(h, KwKey(Lower(term)), id);
  }

  /** A prefix or Levenshtein term finds exactly the ids with an accepted keyword. */
  lemma ScanTerm(h: seq<Doc>, mode: Mode, term: Bytes, id: nat)
    requires mode.Prefix? || mode.Close?
    ensures id in TermSet(IndexAfter(h), mode, term) <==>
            exists k :: Named(h, id, k) && Accepts(mode, Lower(term), KwKey(k))
  {
    hide IndexAfter, Named;
    var index := IndexAfter(h);
    if id in TermSet(index, mode, term) {
      var key :| key in index && Accepts(mode, Lower(term), key) && id in index[key];
      KwPosted(h, key, id);
      assert key == KwKey(key[3..]);
    }
    if k :| Named(h, id, k) && Accepts(mode, Lower(term), KwKey(k)) {
      KwKeyParts(k);
      KwPosted(h, KwKey(k), id);
      assert id in index[KwKey(k)];
    }
  }

  lemma KwKeyParts(k: Bytes)
    ensures HasPrefix(KwKey(k), KW) && KwKey(k)[3..] == k
  {
  }

  // ---------- what the searches mean ----------

  /** What a term finds for an id, said in terms of what stands in the index for it. */
  ghost predicate Answers(h: seq<Doc>, mode: Mode, term: Bytes, id: nat) {
    match mode
    case Exact => Named(h, id, Lower(term))
    case Prefix => exists k :: Named(h, id, k) && HasPrefix(k, Lower(term))
    case Close(d) => exists k :: Named(h, id, k) && Levenshtein.Dist(Lower(term), k) <= d
    case Partial => forall i :: 0 <= i < |Trigrams(Lower(term))| ==> Grams(h, id, Trigrams(Lower(term))[i])
  }

  /** What a term asks of an id, said in terms of its keywords alone. */
  ghost predicate Holds(h: seq<Doc>, mode: Mode, term: Bytes, id: nat) {
    match mode
    case Exact => Carries(h, id, Lower(term))
    case Prefix => exists k :: Carries(h, id, k) && HasPrefix(k, Lower(term))
    case Close(d) => exists k :: Carries(h, id, k) && Levenshtein.Dist(Lower(term), k) <= d
    case Partial => forall i :: 0 <= i < |Trigrams(Lower(term))| ==> CarriesTrigram(h, id, Trigrams(Lower(term))[i])
  }

  lemma ScanAnswers(h: seq<Doc>, mode: Mode, term: Bytes, id: nat)
    requires mode.Prefix? || mode.Close?
    ensures id in TermSet(IndexAfter(h), mode, term) <==> Answers(h, mode, term, id)
  {
    ScanTerm(h, mode, term, id);
    forall k ensures Accepts(mode, Lower(term), KwKey(k)) <==>
              (if mode.Prefix? then HasPrefix(k, Lower(term)) else Levenshtein.Dist(Lower(term), k) <= mode.maxDistance)
    {
      KwKeyParts(k);
    }
    hide TermSet, Named, HasPrefix, Accepts;
  }

  lemma PartialAnswers(h: seq<Doc>, term: Bytes, id: nat)
    ensures id in TermSet(IndexAfter(h), Partial, term) <==> Answers(h, Partial, term, id)
  {
    var tgs := Trigrams(Lower(term));
    PostedMember(IndexAfter(h), tgs, id);
    hide Grams, Trigrams;
    forall i | 0 <= i < |tgs| ensures id in Lookup(IndexAfter(h), tgs[i]) <==> Grams(h, id, tgs[i]) {
      TrigramSize(Lower(term), tgs[i]);
      TrigramPosted(h, tgs[i], id);
    }
  }

  lemma TermAnswers(h: seq<Doc>, mode: Mode, term: Bytes, id: nat)
    ensures id in TermSet(IndexAfter(h), mode, term) <==> Answers(h, mode, term, id)
  {
    match mode
    case Exact => ExactTerm(h, term, id);
    case Partial => hide *; PartialAnswers(h, term, id);
    case _ => hide *; ScanAnswers(h, mode, term, id);
  }

  /** Every mode returns, after any add-only history of any keywords, exactly the ids that every
      query term finds. */
  lemma SearchAnswers(h: seq<Doc>, mode: Mode, terms: seq<Bytes>, id: nat)
    requires |terms| > 0
    ensures id in Result(IndexAfter(h), mode, terms).value <==>
            forall i :: 0 <= i < |terms| ==> Answers(h, mode, terms[i], id)
  {
    MeetMember(IndexAfter(h), mode, terms, id);
    hide Answers, TermSet;
    forall i | 0 <= i < |terms|
      ensures id in TermSet(IndexAfter(h), mode, terms[i]) <==> Answers(h, mode, terms[i], id)
    {
      TermAnswers(h, mode, terms[i], id);
    }
  }

  /** The empty keyword and the trigram "kw:", which share a key, are carried both or neither. */
  ghost predicate Plain(h: seq<Doc>, id: nat) {
    Carries(h, id, []) <==> CarriesTrigram(h, id, KW)
  }

  lemma ValidPlain(h: seq<Doc>, id: nat)
    requires ValidHistory(h)
    ensures Plain(h, id)
  {
    forall k | Carries(h, id, k) ensures k != [] && KW !in Trigrams(k) {
      var i, j :| 0 <= i < |h| && 0 <= j < |h[i].keywords| && h[i].id == id && Lower(h[i].keywords[j]) == k;
      SharedKey(h[i].keywords[j]);
      LowerTwice(h[i].keywords[j]);
    }
  }

  lemma PlainHolds(h: seq<Doc>, mode: Mode, term: Bytes, id: nat)
    requires Plain(h, id)
    ensures Answers(h, mode, term, id) <==> Holds(h, mode, term, id)
  {
    assert forall k :: Named(h, id, k) <==> Carries(h, id, k);
    assert forall tg :: Grams(h, id, tg) <==> CarriesTrigram(h, id, tg);
    hide Named, Grams, Carries, CarriesTrigram, Trigrams, HasPrefix;
  }

  /** Every mode returns exactly the ids for which every query term holds, for every id whose
      documents do not confuse the empty keyword with the trigram "kw:", and so for valid keywords. */
  lemma SearchMeans(h: seq<Doc>, mode: Mode, terms: seq<Bytes>, id: nat)
    requires Plain(h, id) && |terms| > 0
    ensures id in Result(IndexAfter(h), mode, terms).value <==>
            forall i :: 0 <= i < |terms| ==> Holds(h, mode, terms[i], id)
  {
    hide *;
    SearchAnswers(h, mode, terms, id);
    forall i | 0 <= i < |terms| ensures Answers(h, mode, terms[i], id) <==> Holds(h, mode, terms[i], id) {
      PlainHolds(h, mode, terms[i], id);
    }
  }

  ghost predicate MeansAlways(h: seq<Doc>, id: nat) {
    forall mode, term :: id in Result(IndexAfter(h), mode, [term]).value <==> Holds(h, mode, term, id)
  }

  lemma OneTerm(h: seq<Doc>, mode: Mode, term: Bytes, id: nat)
    ensures id in Result(IndexAfter(h), mode, [term]).value <==> Answers(h, mode, term, id)
  {
    hide IndexAfter, Answers, MeetAll;
    SearchAnswers(h, mode, [term], id);
    assert [term][0] == term;
  }

  /** That condition is exact. */
  lemma MeansIffPlain(h: seq<Doc>, id: nat)
    ensures MeansAlways(h, id) <==> Plain(h, id)
  {
    hide IndexAfter, MeetAll, Carries, CarriesTrigram;
    if Plain(h, id) {
      forall mode, term ensures id in Result(IndexAfter(h), mode, [term]).value <==> Holds(h, mode, term, id) {
        OneTerm(h, mode, term, id);
        PlainHolds(h, mode, term, id);
      }
    }
    if MeansAlways(h, id) {
      OneTerm(h, Exact, [], id);
      assert Lower([]) == [];
      assert Holds(h, Exact, [], id) <==> Carries(h, id, []);
      OneTerm(h, Partial, KW, id);
      assert Lower(KW) == KW && KW[0..3] == KW;
      assert Trigrams(KW) == [KW];
      assert Holds(h, Partial, KW, id) <==> CarriesTrigram(h, id, Trigrams(KW)[0]);
      assert Answers(h, Partial, KW, id) <==> Grams(h, id, Trigrams(KW)[0]);
    }
  }

  /** A document with the keyword "kw:" is found by an exact search for the empty keyword. */
  lemma EmptyTermFinds()
    ensures var h := [Doc([KW], 1)];
      1 in Result(IndexAfter(h), Exact, [[]]).value && !Holds(h, Exact, [], 1)
  {
    var h := [Doc([KW], 1)];
    assert Lower(KW) == KW && KW[0..3] == KW && Trigrams(KW) == [KW];
    assert h[0].keywords[0] == KW && Carries(h, 1, KW);
    assert KW in Trigrams(KW);
    assert CarriesTrigram(h, 1, KW);
    assert !Carries(h, 1, []);
    hide IndexAfter, Trigrams;
    OneTerm(h, Exact, [], 1);
    assert Lower([]) == [];
  }

  predicate OccursAt(k: Bytes, s: Bytes, i: nat) {
    i + |s| <= |k| && k[i..i + |s|] == s
  }

  ghost predicate Contains(k: Bytes, s: Bytes) {
    exists i: nat :: OccursAt(k, s, i)
  }

  lemma WindowsContained(k: Bytes, s: Bytes, i: nat)
    requires Contains(k, s) && |s| >= 3 && i < |Windows(s)|
    ensures |k| >= 3 && Windows(s)[i] in Windows(k)
  {
    var at: nat :| OccursAt(k, s, at);
    SliceSlice(k, at, at + |s|, i, i + 3);
    assert Windows(k)[at + i] == Windows(s)[i];
  }

  lemma CarriedIsLower(h: seq<Doc>, id: nat, k: Bytes)
    requires Carries(h, id, k)
    ensures Lower(k) == k
  {
    var i, j :| 0 <= i < |h| && 0 <= j < |h[i].keywords| && h[i].id == id && Lower(h[i].keywords[j]) == k;
    LowerTwice(h[i].keywords[j]);
  }

  /** Partial search misses no id with a keyword containing the term, from three characters on. */
  lemma PartialComplete(h: seq<Doc>, term: Bytes, id: nat, k: Bytes)
    requires |term| >= 3 && Carries(h, id, k) && Contains(k, Lower(term))
    ensures Holds(h, Partial, term, id)
  {
    LowerTwice(term);
    CarriedIsLower(h, id, k);
    var s := Lower(term);
    forall i | 0 <= i < |Trigrams(s)| ensures CarriesTrigram(h, id, Trigrams(s)[i]) {
      WindowsContained(k, s, i);
      assert Trigrams(s)[i] in Trigrams(k);
    }
  }

  /** At three characters it is exact. */
  lemma PartialExactAtThree(h: seq<Doc>, term: Bytes, id: nat)
    requires |term| == 3
    ensures Holds(h, Partial, term, id) <==> exists k :: Carries(h, id, k) && Contains(k, Lower(term))
  {
    LowerTwice(term);
    var s := Lower(term);
    assert s[0..3] == s;
    assert Trigrams(s) == [s];
    if Holds(h, Partial, term, id) {
      assert CarriesTrigram(h, id, Trigrams(s)[0]);
      var k :| Carries(h, id, k) && s in Trigrams(k);
      CarriedIsLower(h, id, k);
      var i :| 0 <= i < |Windows(k)| && Windows(k)[i] == s;
      assert OccursAt(k, s, i);
    }
    if k :| Carries(h, id, k) && Contains(k, Lower(term)) { PartialComplete(h, term, id, k); }
  }

  /** Below three characters it matches whole keywords only. */
  lemma PartialShort(h: seq<Doc>, term: Bytes, id: nat)
    requires |term| < 3
    ensures Holds(h, Partial, term, id) <==> Carries(h, id, Lower(term))
  {
    LowerTwice(term);
    var s := Lower(term);
    assert Trigrams(s) == [s];
    if Holds(h, Partial, term, id) {
      assert CarriesTrigram(h, id, Trigrams(s)[0]);
      var k :| Carries(h, id, k) && s in Trigrams(k);
      CarriedIsLower(h, id, k);
    }
    if Carries(h, id, s) {
      assert s in Trigrams(s);
      assert CarriesTrigram(h, id, s);
    }
  }

  /** Exact results are found by every other mode. */
  lemma ExactIsStrongest(h: seq<Doc>, mode: Mode, term: Bytes, id: nat)
    requires Holds(h, Exact, term, id)
    ensures Holds(h, mode, term, id)
  {
    var k := Lower(term);
    LowerTwice(term);
    Levenshtein.SelfZero(k);
    assert k[..|k|] == k;
    if mode.Partial? {
      forall i | 0 <= i < |Trigrams(k)| ensures CarriesTrigram(h, id, Trigrams(k)[i]) {
        assert Trigrams(k)[i] in Trigrams(k);
      }
    }
  }

  /** Levenshtein search at distance 0 is exact search. */
  lemma CloseZeroIsExact(h: seq<Doc>, term: Bytes, id: nat)
    ensures Holds(h, Close(0), term, id) <==> Holds(h, Exact, term, id)
  {
    if Holds(h, Close(0), term, id) {
      var k :| Carries(h, id, k) && Levenshtein.Dist(Lower(term), k) <= 0;
      Levenshtein.ZeroIffEqual(Lower(term), k);
    }
    if Holds(h, Exact, term, id) { ExactIsStrongest(h, Close(0), term, id); }
  }

  /** Levenshtein results grow with the distance. */
  lemma CloseGrows(h: seq<Doc>, term: Bytes, id: nat, d: nat, e: nat)
    requires d <= e && Holds(h, Close(d), term, id)
    ensures Holds(h, Close(e), term, id)
  {
    var k :| Carries(h, id, k) && Levenshtein.Dist(Lower(term), k) <= d;
    assert Levenshtein.Dist(Lower(term), k) <= e;
  }
}
