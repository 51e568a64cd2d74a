/** levenshteinDistance: the matrix computation, and that it is the least number of edits. */
module Levenshtein {
  import opened Seqs

  function Min3(x: nat, y: nat, z: nat): nat {
    var m := if x < y then x else y;
    if m < z then m else z
  }

  /** The recurrence over prefixes that the matrix tabulates. */
  function Dist<T(==)>(a: seq<T>, b: seq<T>): nat
    decreases |a| + |b|
  {
    if |a| == 0 then |b|
    else if |b| == 0 then |a|
    else
      var a', b' := a[..|a| - 1], b[..|b| - 1];
      Min3(Dist(a', b) + 1, Dist(a, b') + 1, Dist(a', b') + Cost(a[|a| - 1], b[|b| - 1]))
  }

  function Cost<T(==)>(x: T, y: T): nat {
    if x == y then 0 else 1
  }

  // ---------- the matrix ----------

  /** Cells in rows before `i`, and in row `i` before column `j`, hold prefix distances, as do
      row 0 and column 0. */
  ghost predicate Filled<T>(d: array2<nat>, a: seq<T>, b: seq<T>, i: nat, j: nat)
    reads d
  {
    && d.Length0 == |a| + 1 && d.Length1 == |b| + 1
    && forall x, y :: 0 <= x <= |a| && 0 <= y <= |b| && (x < i || (x == i && y < j) || x == 0 || y == 0) ==>
        d[x, y] == Dist(a[..x], b[..y])
  }

  lemma CellValue<T>(a: seq<T>, b: seq<T>, i: nat, j: nat)
    requires 0 < i <= |a| && 0 < j <= |b|
    ensures Dist(a[..i], b[..j]) == Min3(Dist(a[..i - 1], b[..j]) + 1, Dist(a[..i], b[..j - 1]) + 1,
                                         Dist(a[..i - 1], b[..j - 1]) + Cost(a[i - 1], b[j - 1]))
  {
    assert a[..i][..i - 1] == a[..i - 1] && b[..j][..j - 1] == b[..j - 1];
  }

  method FillRow<T(==)>(d: array2<nat>, a: seq<T>, b: seq<T>, i: nat)
    requires 0 < i <= |a| && Filled(d, a, b, i, 0)
    modifies d
    ensures Filled(d, a, b, i + 1, 0)
  {
    hide Dist;
    for j := 1 to |b| + 1
      invariant Filled(d, a, b, i, j)
    {
      CellValue(a, b, i, j);
      d[i, j] := Min3(d[i - 1, j] + 1, d[i, j - 1] + 1, d[i - 1, j - 1] + Cost(a[i - 1], b[j - 1]));
    }
  }

  method Borders<T(==)>(a: seq<T>, b: seq<T>) returns (d: array2<nat>)
    ensures fresh(d) && Filled(d, a, b, 1, 0)
  {
    d := new nat[|a| + 1, |b| + 1]((_, _) => 0);
    for i := 0 to |a| + 1
      invariant forall x :: 0 <= x < i ==> d[x, 0] == x
    {
      d[i, 0] := i;
    }
    for j := 0 to |b| + 1
      invariant forall x :: 0 <= x <= |a| ==> d[x, 0] == x
      invariant forall y :: 0 <= y < j ==> d[0, y] == y
    {
      d[0, j] := j;
    }
  }

  method LevenshteinDistance<T(==)>(a: seq<T>, b: seq<T>) returns (r: nat)
    ensures r == Dist(a, b)
  {
    if |a| == 0 { return |b|; }
    if |b| == 0 { return |a|; }
    var d := Borders(a, b);
    for i := 1 to |a| + 1
      invariant fresh(d) && Filled(d, a, b, i, 0)
    {
      FillRow(d, a, b, i);
    }
    assert a[..|a|] == a && b[..|b|] == b;
    return d[|a|, |b|];
  }

  // ---------- a metric ----------

  lemma {:induction false} Symmetric<T>(a: seq<T>, b: seq<T>)
    ensures Dist(a, b) == Dist(b, a)
    decreases |a| + |b|
  {
    if |a| > 0 && |b| > 0 {
      var a', b' := a[..|a| - 1], b[..|b| - 1];
      Symmetric(a', b);
      Symmetric(a, b');
      Symmetric(a', b');
    }
  }

  lemma {:induction false} SelfZero<T>(a: seq<T>)
    ensures Dist(a, a) == 0
  {
    if |a| > 0 { SelfZero(a[..|a| - 1]); }
  }

  lemma {:induction false} ZeroOnlyEqual<T>(a: seq<T>, b: seq<T>)
    requires Dist(a, b) == 0
    ensures a == b
  {
    if |a| > 0 && |b| > 0 {
      ZeroOnlyEqual(a[..|a| - 1], b[..|b| - 1]);
      assert a == a[..|a| - 1] + [a[|a| - 1]] && b == b[..|b| - 1] + [b[|b| - 1]];
    }
  }

  lemma ZeroIffEqual<T>(a: seq<T>, b: seq<T>)
    ensures Dist(a, b) == 0 <==> a == b
  {
    if Dist(a, b) == 0 { ZeroOnlyEqual(a, b); }
    if a == b { SelfZero(a); }
  }

  lemma Recurrence<T>(a: seq<T>, b: seq<T>)
    requires |a| > 0 && |b| > 0
    ensures var a', b' := a[..|a| - 1], b[..|b| - 1];
      && Dist(a, b) <= Dist(a', b) + 1
      && Dist(a, b) <= Dist(a, b') + 1
      && Dist(a, b) <= Dist(a', b') + Cost(a[|a| - 1], b[|b| - 1])
      && (Dist(a, b) == Dist(a', b) + 1 || Dist(a, b) == Dist(a, b') + 1
          || Dist(a, b) == Dist(a', b') + Cost(a[|a| - 1], b[|b| - 1]))
  {
  }

  lemma {:induction false} LengthBound<T>(a: seq<T>, b: seq<T>)
    ensures |a| <= Dist(a, b) + |b| && |b| <= Dist(a, b) + |a|
    decreases |a| + |b|
  {
    if |a| > 0 && |b| > 0 {
      LengthBound(a[..|a| - 1], b);
      LengthBound(a, b[..|b| - 1]);
      LengthBound(a[..|a| - 1], b[..|b| - 1]);
    }
  }

  lemma {:induction false} Triangle<T>(a: seq<T>, b: seq<T>, c: seq<T>)
    ensures Dist(a, c) <= Dist(a, b) + Dist(b, c)
    decreases |a| + |b| + |c|
  {
    if |a| == 0 || |b| == 0 || |c| == 0 {
      LengthBound(a, b);
      LengthBound(b, c);
      if |b| == 0 { LengthBound(a, c); TotalBound(a, c); }
    } else {
      var a', b', c' := a[..|a| - 1], b[..|b| - 1], c[..|c| - 1];
      var x, y, z := a[|a| - 1], b[|b| - 1], c[|c| - 1];
      Recurrence(a, b);
      Recurrence(b, c);
      Recurrence(a, c);
      if Dist(a, b) == Dist(a', b) + 1 {
        Triangle(a', b, c);
      } else if Dist(b, c) == Dist(b, c') + 1 {
        Triangle(a, b, c');
      } else if Dist(a, b) == Dist(a, b') + 1 {
        if Dist(b, c) == Dist(b', c) + 1 { Triangle(a, b', c); } else { Triangle(a, b', c'); }
      } else {
        if Dist(b, c) == Dist(b', c) + 1 { Triangle(a', b', c); } else { Triangle(a', b', c'); }
      }
    }
  }

  lemma {:induction false} TotalBound<T>(a: seq<T>, b: seq<T>)
    ensures Dist(a, b) <= |a| + |b|
    decreases |a| + |b|
  {
    if |a| > 0 && |b| > 0 { TotalBound(a[..|a| - 1], b); }
  }

  // ---------- edits ----------

  ghost predicate Inserts<T>(a: seq<T>, b: seq<T>, i: nat) {
    i < |b| && a == b[..i] + b[i + 1..]
  }

  ghost predicate Substitutes<T>(a: seq<T>, b: seq<T>, i: nat) {
    i < |a| && |a| == |b| && a[..i] == b[..i] && a[i + 1..] == b[i + 1..]
  }

  /** One insertion, deletion or substitution anywhere in the string. */
  ghost predicate OneEdit<T>(a: seq<T>, b: seq<T>) {
    exists i: nat :: Inserts(a, b, i) || Inserts(b, a, i) || Substitutes(a, b, i)
  }

  ghost predicate EditIn<T(!new)>(a: seq<T>, b: seq<T>, n: nat)
    decreases n
  {
    if n == 0 then a == b else exists m :: OneEdit(a, m) && EditIn(m, b, n - 1)
  }

  lemma {:induction false} EditSnoc<T(!new)>(a: seq<T>, m: seq<T>, b: seq<T>, n: nat)
    requires EditIn(a, m, n) && OneEdit(m, b)
    ensures EditIn(a, b, n + 1)
    decreases n
  {
    hide OneEdit;
    if n == 0 {
      assert EditIn(b, b, 0);
    } else {
      var k :| OneEdit(a, k) && EditIn(k, m, n - 1);
      EditSnoc(k, m, b, n - 1);
    }
  }

  lemma InsertsAppend<T>(a: seq<T>, b: seq<T>, x: T, i: nat)
    requires Inserts(a, b, i)
    ensures Inserts(a + [x], b + [x], i)
  {
    var q := b + [x];
    assert q[..i] == b[..i] && q[i + 1..] == b[i + 1..] + [x];
  }

  lemma SubstitutesAppend<T>(a: seq<T>, b: seq<T>, x: T, i: nat)
    requires Substitutes(a, b, i)
    ensures Substitutes(a + [x], b + [x], i)
  {
    var p, q := a + [x], b + [x];
    assert p[..i] == a[..i] && p[i + 1..] == a[i + 1..] + [x];
    assert q[..i] == b[..i] && q[i + 1..] == b[i + 1..] + [x];
  }

  lemma OneEditAppend<T>(a: seq<T>, b: seq<T>, x: T)
    requires OneEdit(a, b)
    ensures OneEdit(a + [x], b + [x])
  {
    var i: nat :| Inserts(a, b, i) || Inserts(b, a, i) || Substitutes(a, b, i);
    hide Inserts, Substitutes;
    if Inserts(a, b, i) {
      InsertsAppend(a, b, x, i);
    } else if Inserts(b, a, i) {
      InsertsAppend(b, a, x, i);
    } else {
      SubstitutesAppend(a, b, x, i);
    }
  }

  lemma {:induction false} EditAppend<T(!new)>(a: seq<T>, b: seq<T>, x: T, n: nat)
    requires EditIn(a, b, n)
    ensures EditIn(a + [x], b + [x], n)
    decreases n
  {
    hide OneEdit;
    if n > 0 {
      var m :| OneEdit(a, m) && EditIn(m, b, n - 1);
      OneEditAppend(a, m, x);
      EditAppend(m, b, x, n - 1);
    }
  }

  lemma LastEdits<T(!new)>(a: seq<T>, x: T, y: T)
    ensures OneEdit(a, a + [x]) && OneEdit(a + [x], a) && OneEdit(a + [x], a + [y])
  {
    assert Inserts(a, a + [x], |a|);
    assert Substitutes(a + [x], a + [y], |a|);
  }

  lemma {:induction false} FromEmpty<T(!new)>(b: seq<T>)
    ensures EditIn([], b, |b|)
  {
    hide OneEdit;
    if |b| > 0 {
      var b', y := b[..|b| - 1], b[|b| - 1];
      FromEmpty(b');
      SplitLast(b);
      LastEdits(b', y, y);
      EditSnoc([], b', b, |b'|);
    }
  }

  lemma {:induction false} ToEmpty<T(!new)>(a: seq<T>)
    ensures EditIn(a, [], |a|)
  {
    hide OneEdit;
    if |a| > 0 {
      var a', x := a[..|a| - 1], a[|a| - 1];
      ToEmpty(a');
      SplitLast(a);
      LastEdits(a', x, x);
    }
  }

  /** The distance can be achieved: that many edits lead from `a` to `b`. */
  lemma {:induction false} Achievable<T(!new)>(a: seq<T>, b: seq<T>)
    ensures EditIn(a, b, Dist(a, b))
    decreases |a| + |b|
  {
    hide OneEdit, EditIn;
    if |a| == 0 {
      FromEmpty(b);
    } else if |b| == 0 {
      ToEmpty(a);
    } else {
      AchievableStep(a, b);
    }
  }

  lemma {:induction false} AchievableStep<T(!new)>(a: seq<T>, b: seq<T>)
    requires |a| > 0 && |b| > 0
    ensures EditIn(a, b, Dist(a, b))
    decreases |a| + |b|, 0
  {
    hide OneEdit, Dist;
    var a', x := a[..|a| - 1], a[|a| - 1];
    var b', y := b[..|b| - 1], b[|b| - 1];
    assert a == a' + [x] && b == b' + [y];
    LastEdits(a', x, x);
    LastEdits(b', y, y);
    LastEdits(b', x, y);
    Recurrence(a, b);
    if Dist(a, b) == Dist(a', b) + 1 {
      Achievable(a', b);
    } else if Dist(a, b) == Dist(a, b') + 1 {
      Achievable(a, b');
      EditSnoc(a, b', b, Dist(a, b'));
    } else {
      Achievable(a', b');
      EditAppend(a', b', x, Dist(a', b'));
      if x != y { EditSnoc(a, b' + [x], b, Dist(a', b')); }
    }
  }

  lemma {:induction false} SuffixBound<T>(p: seq<T>, q: seq<T>, s: seq<T>)
    ensures Dist(p + s, q + s) <= Dist(p, q)
    decreases |s|
  {
    if s == [] {
      assert p + s == p && q + s == q;
    } else {
      var s', x := s[..|s| - 1], s[|s| - 1];
      SuffixBound(p, q, s');
      assert (p + s)[..|p + s| - 1] == p + s' && (q + s)[..|q + s| - 1] == q + s';
      Recurrence(p + s, q + s);
    }
  }

  lemma InsertBound<T>(a: seq<T>, b: seq<T>, i: nat)
    requires Inserts(a, b, i)
    ensures Dist(a, b) <= 1
  {
    var p, s := b[..i], b[i + 1..];
    assert b == (p + [b[i]]) + s;
    SelfZero(p);
    assert (p + [b[i]])[..|p|] == p;
    if |p| > 0 { Recurrence(p, p + [b[i]]); }
    SuffixBound(p, p + [b[i]], s);
  }

  lemma SubstituteBound<T>(a: seq<T>, b: seq<T>, i: nat)
    requires Substitutes(a, b, i)
    ensures Dist(a, b) <= 1
  {
    hide Dist;
    var p, s := a[..i], a[i + 1..];
    assert a == (p + [a[i]]) + s && b == (p + [b[i]]) + s;
    SelfZero(p);
    assert (p + [a[i]])[..|p|] == p && (p + [b[i]])[..|p|] == p;
    Recurrence(p + [a[i]], p + [b[i]]);
    SuffixBound(p + [a[i]], p + [b[i]], s);
  }

  lemma OneEditBound<T>(a: seq<T>, b: seq<T>)
    requires OneEdit(a, b)
    ensures Dist(a, b) <= 1
  {
    hide Dist;
    var i: nat :| Inserts(a, b, i) || Inserts(b, a, i) || Substitutes(a, b, i);
    if Inserts(a, b, i) {
      InsertBound(a, b, i);
    } else if Inserts(b, a, i) {
      InsertBound(b, a, i);
      Symmetric(a, b);
    } else {
      SubstituteBound(a, b, i);
    }
  }

  /** The distance is least: no shorter sequence of edits exists. */
  lemma {:induction false} Minimal<T(!new)>(a: seq<T>, b: seq<T>, n: nat)
    requires EditIn(a, b, n)
    ensures Dist(a, b) <= n
    decreases n
  {
    if n == 0 {
      SelfZero(a);
    } else {
      var m :| OneEdit(a, m) && EditIn(m, b, n - 1);
      Minimal(m, b, n - 1);
      OneEditBound(a, m);
      Triangle(a, m, b);
    }
  }
}
