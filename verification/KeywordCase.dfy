/** Keyword search and the case of letters, said on the keywords as they were given. */
module KeywordCase {
  import opened Bytes
  import opened Seqs
  import opened EntryCodec
  import opened EntryBytes
  import opened KeywordIndex
  import Levenshtein

  /** Queries that differ in case alone give the same result, in every mode and on every index. */
  lemma {:induction false} SearchIgnoresCase(index: Postings, mode: Mode, ss: seq<Bytes>, ts: seq<Bytes>)
    requires AllSameButCase(ss, ts)
    ensures Result(index, mode, ss) == Result(index, mode, ts)
    decreases |ss|
  {
    if ss != [] {
      var n := |ss| - 1;
      hide TermSet;
      assert SameButCase(ss[n], ts[n]);
      TermIgnoresCase(index, mode, ss[n], ts[n]);
      if n > 0 { SearchIgnoresCase(index, mode, ss[..n], ts[..n]); }
    }
  }

  lemma TermIgnoresCase(index: Postings, mode: Mode, s: Bytes, t: Bytes)
    requires SameButCase(s, t)
    ensures TermSet(index, mode, s) == TermSet(index, mode, t)
  {
    LowerIffSame(s, t);
    hide Lower, Trigrams, PostedUnderAll, Gathered;
  }

  /** Keywords that differ in case alone are posted alike. */
  lemma {:induction false} AddIgnoresCase(ks: seq<Bytes>, ls: seq<Bytes>)
    requires AllSameButCase(ks, ls)
    ensures DocKeys(ks) == DocKeys(ls)
    decreases |ks|
  {
    if ks != [] {
      var n := |ks| - 1;
      assert SameButCase(ks[n], ls[n]);
      LowerIffSame(ks[n], ls[n]);
      AddIgnoresCase(ks[..n], ls[..n]);
      hide Lower;
    }
  }

  /** The j-th keyword of the i-th document was given to the id. */
  ghost predicate Given(h: seq<Doc>, id: nat, i: int, j: int) {
    0 <= i < |h| && h[i].id == id && 0 <= j < |h[i].keywords|
  }

  /** Exact search for a non-empty term finds exactly the ids that were given the term as a keyword, in
      any case. */
  lemma ExactFindsGiven(h: seq<Doc>, term: Bytes, id: nat)
    requires term != []
    ensures id in Result(IndexAfter(h), Exact, [term]).value <==>
            exists i, j :: Given(h, id, i, j) && SameButCase(h[i].keywords[j], term)
  {
    hide IndexAfter, MeetAll, Answers, CarriesTrigram, SameButCase;
    OneTerm(h, Exact, term, id);
    ExactAnswers(h, term, id);
    if Carries(h, id, Lower(term)) {
      var i, j :| 0 <= i < |h| && 0 <= j < |h[i].keywords| && h[i].id == id && Lower(h[i].keywords[j]) == Lower(term);
      LowerIffSame(h[i].keywords[j], term);
      assert Given(h, id, i, j);
    }
    if i, j :| Given(h, id, i, j) && SameButCase(h[i].keywords[j], term) {
      LowerIffSame(h[i].keywords[j], term);
    }
  }

  lemma ExactAnswers(h: seq<Doc>, term: Bytes, id: nat)
    requires term != []
    ensures Answers(h, Exact, term, id) <==> Carries(h, id, Lower(term))
  {
    assert Lower(term) != [];
    hide Carries, CarriesTrigram;
  }

  /** Prefix search finds exactly the ids that were given a keyword which begins with the term, in any
      case. */
  lemma PrefixFindsGiven(h: seq<Doc>, term: Bytes, id: nat)
    ensures id in Result(IndexAfter(h), Prefix, [term]).value <==>
            exists i, j :: Given(h, id, i, j) && |term| <= |h[i].keywords[j]|
                           && SameButCase(h[i].keywords[j][..|term|], term)
  {
    hide IndexAfter, MeetAll, CarriesTrigram, SameButCase, Carries;
    OneTerm(h, Prefix, term, id);
    if k :| Named(h, id, k) && HasPrefix(k, Lower(term)) {
      var i, j := NamedGiven(h, id, k);
      PrefixSame(h[i].keywords[j], term);
    }
    if i, j :| Given(h, id, i, j) && |term| <= |h[i].keywords[j]| && SameButCase(h[i].keywords[j][..|term|], term) {
      PrefixSame(h[i].keywords[j], term);
      assert Carries(h, id, Lower(h[i].keywords[j])) by { GivenCarried(h, id, i, j); }
      assert Named(h, id, Lower(h[i].keywords[j]));
    }
  }

  lemma GivenCarried(h: seq<Doc>, id: nat, i: int, j: int)
    requires Given(h, id, i, j)
    ensures Carries(h, id, Lower(h[i].keywords[j]))
  {
  }

  /** What stands in the index for an id comes from a keyword it was given. */
  lemma NamedGiven(h: seq<Doc>, id: nat, k: Bytes) returns (i: int, j: int)
    requires Named(h, id, k)
    ensures Given(h, id, i, j) && (Lower(h[i].keywords[j]) == k || k == [])
  {
    hide Trigrams;
    var c := k;
    if !Carries(h, id, k) { c :| Carries(h, id, c) && KW in Trigrams(c); }
    i, j :| 0 <= i < |h| && 0 <= j < |h[i].keywords| && h[i].id == id && Lower(h[i].keywords[j]) == c;
  }

  lemma PrefixSame(k: Bytes, term: Bytes)
    ensures HasPrefix(Lower(k), Lower(term)) <==> |term| <= |k| && SameButCase(k[..|term|], term)
  {
    if |term| <= |k| {
      LowerIffSame(k[..|term|], term);
      assert Lower(k)[..|term|] == Lower(k[..|term|]);
    }
  }

  /** Levenshtein search finds exactly the ids that were given a keyword within the distance, in any case;
      a keyword with the trigram "kw:" also counts as the empty keyword. */
  lemma CloseFindsGiven(h: seq<Doc>, term: Bytes, d: nat, id: nat)
    ensures id in Result(IndexAfter(h), Close(d), [term]).value <==>
            exists i, j :: Given(h, id, i, j)
                           && (|| Levenshtein.Dist(Lower(term), Lower(h[i].keywords[j])) <= d
                               || (|term| <= d && KW in Trigrams(h[i].keywords[j])))
  {
    hide IndexAfter, MeetAll, Carries, Trigrams;
    OneTerm(h, Close(d), term, id);
    DistToEmpty(Lower(term));
    if k :| Named(h, id, k) && Levenshtein.Dist(Lower(term), k) <= d {
      if Carries(h, id, k) {
        var i, j := CarriedGiven(h, id, k);
      } else {
        var c :| Carries(h, id, c) && KW in Trigrams(c);
        var i, j := CarriedGiven(h, id, c);
        TrigramsOfLower(h[i].keywords[j]);
      }
    }
    if i, j :| Given(h, id, i, j) && (|| Levenshtein.Dist(Lower(term), Lower(h[i].keywords[j])) <= d
                                      || (|term| <= d && KW in Trigrams(h[i].keywords[j])))
    {
      GivenCarried(h, id, i, j);
      TrigramsOfLower(h[i].keywords[j]);
      if Levenshtein.Dist(Lower(term), Lower(h[i].keywords[j])) <= d {
        assert Named(h, id, Lower(h[i].keywords[j]));
      } else {
        assert Named(h, id, []);
      }
    }
  }

  lemma CarriedGiven(h: seq<Doc>, id: nat, k: Bytes) returns (i: int, j: int)
    requires Carries(h, id, k)
    ensures Given(h, id, i, j) && Lower(h[i].keywords[j]) == k
  {
    i, j :| 0 <= i < |h| && 0 <= j < |h[i].keywords| && h[i].id == id && Lower(h[i].keywords[j]) == k;
  }

  lemma TrigramsOfLower(k: Bytes)
    ensures Trigrams(Lower(k)) == Trigrams(k)
  {
    LowerTwice(k);
  }

  lemma DistToEmpty(s: Bytes)
    ensures Levenshtein.Dist(s, []) == |s|
  {
  }

  /** No posting list names an id twice. */
  lemma {:induction false} PostedOnce(h: seq<Doc>, key: Bytes)
    ensures NoDup(Lookup(IndexAfter(h), key))
  {
    hide DocKeys;
    if h != [] {
      var last := h[|h| - 1];
      PostedOnce(h[..|h| - 1], key);
      PostKeepsOnce(IndexAfter(h[..|h| - 1]), DocKeys(last.keywords), last.id, key);
    }
  }

  lemma {:induction false} PostKeepsOnce(index: Postings, keys: seq<Bytes>, id: nat, key: Bytes)
    requires NoDup(Lookup(index, key))
    ensures NoDup(Lookup(Post(index, keys, id), key))
    decreases |keys|
  {
    if keys != [] { PostKeepsOnce(index, keys[..|keys| - 1], id, key); }
  }
}
