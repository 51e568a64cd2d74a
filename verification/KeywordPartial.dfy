/** Exactly for which terms partial search finds the keywords that contain the term. */
module KeywordPartial {
  import opened Bytes
  import opened EntryCodec
  import opened KeywordIndex

  /** The search returns exactly the ids with a keyword that contains the term, after every history. */
  ghost predicate FindsContaining(term: Bytes) {
    forall h, id :: id in Result(IndexAfter(h), Partial, [term]).value <==> HasContaining(h, id, Lower(term))
  }

  ghost predicate HasContaining(h: seq<Doc>, id: nat, s: Bytes) {
    exists k :: Carries(h, id, k) && Contains(k, s)
  }

  /** What a document with lower-case keywords carries. */
  lemma CarriesOnly(keywords: seq<Bytes>, k: Bytes)
    requires forall j :: 0 <= j < |keywords| ==> Lower(keywords[j]) == keywords[j]
    ensures Carries([Doc(keywords, 1)], 1, k) <==> k in keywords
  {
    var h := [Doc(keywords, 1)];
    if k in keywords {
      var j :| 0 <= j < |keywords| && keywords[j] == k;
      assert h[0].keywords[j] == k;
    }
  }

  /** A run of at least two of its trigrams' windows is shared out over two shorter keywords. */
  lemma LongTerm(term: Bytes)
    requires |term| > 3
    ensures !FindsContaining(term)
  {
    LowerTwice(term);
    var s := Lower(term);
    var n := |s| - 1;
    var a, b := s[..n], s[1..];
    var h := [Doc([a, b], 1)];
    assert Lower(a) == a && Lower(b) == b;
    CarriesOnly([a, b], a);
    CarriesOnly([a, b], b);
    forall i | 0 <= i < |Trigrams(s)| ensures Grams(h, 1, Trigrams(s)[i]) {
      SharedWindow(s, i);
      assert CarriesTrigram(h, 1, Trigrams(s)[i]);
    }
    assert Answers(h, Partial, term, 1);
    forall k | Carries(h, 1, k) ensures !Contains(k, s) {
      CarriesOnly([a, b], k);
    }
    hide Answers, IndexAfter, MeetAll;
    OneTerm(h, Partial, term, 1);
    assert !HasContaining(h, 1, Lower(term));
  }

  lemma SharedWindow(s: Bytes, i: nat)
    requires |s| > 3 && Lower(s) == s && i < |Trigrams(s)|
    ensures Trigrams(s)[i] in Trigrams(s[..|s| - 1]) || Trigrams(s)[i] in Trigrams(s[1..])
  {
    var a, b := s[..|s| - 1], s[1..];
    assert Lower(a) == a && Lower(b) == b;
    if i < |s| - 3 {
      assert Windows(a)[i] == Windows(s)[i];
    } else {
      assert Windows(b)[i - 1] == Windows(s)[i];
    }
  }

  /** A short term is only found as a whole keyword. */
  lemma ShortTerm(term: Bytes)
    requires |term| < 3
    ensures !FindsContaining(term)
  {
    LowerTwice(term);
    var s := Lower(term);
    var k: Bytes := s + [97];
    var h := [Doc([k], 1)];
    assert Lower(k) == k;
    CarriesOnly([k], k);
    assert OccursAt(k, s, 0);
    assert HasContaining(h, 1, s);
    forall x | Carries(h, 1, x) ensures s !in Trigrams(x) {
      CarriesOnly([k], x);
      if |k| == 3 { OnlyWindow(k); }
    }
    assert !Grams(h, 1, Trigrams(s)[0]);
    assert !Answers(h, Partial, term, 1);
    hide Answers, IndexAfter, MeetAll, Carries;
    OneTerm(h, Partial, term, 1);
  }

  lemma OnlyWindow(k: Bytes)
    requires |k| == 3 && Lower(k) == k
    ensures Trigrams(k) == [k]
  {
    assert k[0..3] == k;
  }

  /** The trigram "kw:" is also the key of the empty keyword. */
  lemma SharedTerm(term: Bytes)
    requires Lower(term) == KW
    ensures !FindsContaining(term)
  {
    LowerTwice(term);
    var h := [Doc([[]], 1)];
    assert Lower([]) == [];
    CarriesOnly([[]], []);
    OnlyWindow(KW);
    assert Grams(h, 1, KW) && Answers(h, Partial, term, 1);
    forall k | Carries(h, 1, k) ensures !Contains(k, KW) { CarriesOnly([[]], k); }
    hide Answers, IndexAfter, MeetAll;
    OneTerm(h, Partial, term, 1);
    assert !HasContaining(h, 1, Lower(term));
  }

  /** Partial search means "contains" exactly for terms of three characters other than "kw:". */
  lemma PartialExactIff(term: Bytes)
    ensures FindsContaining(term) <==> |term| == 3 && Lower(term) != KW
  {
    hide FindsContaining;
    if |term| > 3 {
      LongTerm(term);
    } else if |term| < 3 {
      ShortTerm(term);
    } else if Lower(term) == KW {
      SharedTerm(term);
    } else {
      ThreeFinds(term);
    }
  }

  lemma ThreeFinds(term: Bytes)
    requires |term| == 3 && Lower(term) != KW
    ensures FindsContaining(term)
  {
    hide IndexAfter, MeetAll, Carries, Contains;
    forall h, id ensures id in Result(IndexAfter(h), Partial, [term]).value <==> HasContaining(h, id, Lower(term)) {
      OneTerm(h, Partial, term, id);
      PartialExactAtThree(h, term, id);
      ThreeHolds(h, term, id);
    }
  }

  lemma ThreeHolds(h: seq<Doc>, term: Bytes, id: nat)
    requires |term| == 3 && Lower(term) != KW
    ensures Answers(h, Partial, term, id) <==> Holds(h, Partial, term, id)
  {
    LowerTwice(term);
    OnlyWindow(Lower(term));
    hide Carries, CarriesTrigram;
  }
}
