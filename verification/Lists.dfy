/** Facts about finite sequences that several components share. */
module Lists {

  datatype Option<+T> = None | Some(value: T)

  ghost predicate Distinct<T>(s: seq<T>) {
    forall i, j :: 0 <= i < j < |s| ==> s[i] != s[j]
  }

  /** A duplicate-free sequence drawn from `t` is no longer than `t`. */
  lemma {:induction false} DistinctFits<T>(s: seq<T>, t: seq<T>)
    requires Distinct(s)
    requires forall x :: x in s ==> x in t
    ensures |s| <= |t|
    decreases |s|
  {
    if |s| > 0 {
      var x := s[|s| - 1];
      assert x in s;
      var i :| 0 <= i < |t| && t[i] == x;
      var t' := t[..i] + t[i + 1..];
      var s' := s[..|s| - 1];
      forall y | y in s' ensures y in t' {
        var j :| 0 <= j < |s'| && s'[j] == y;
        assert s[j] != x && y in s;
        var k :| 0 <= k < |t| && t[k] == y;
        assert k != i;
        if k < i { assert t'[k] == y; } else { assert t'[k - 1] == y; }
      }
      DistinctFits(s', t');
    }
  }

  lemma {:induction false} DistinctCount<T>(s: seq<T>, x: T)
    requires Distinct(s)
    ensures multiset(s)[x] == if x in s then 1 else 0
    decreases |s|
  {
    if |s| > 0 {
      var n := |s| - 1;
      assert s == s[..n] + [s[n]];
      DistinctCount(s[..n], x);
      if x == s[n] { assert x !in s[..n]; }
    }
  }

  lemma {:induction false} DistinctConcat<T>(s: seq<T>, t: seq<T>)
    requires Distinct(s) && Distinct(t)
    requires forall x :: x in s ==> x !in t
    ensures Distinct(s + t)
  {
    forall i, j | 0 <= i < j < |s + t| ensures (s + t)[i] != (s + t)[j] {
      if i < |s| <= j { assert s[i] in s && t[j - |s|] in t; }
    }
  }

  lemma {:induction false} MultisetCancel<T>(a: multiset<T>, b: multiset<T>, c: multiset<T>)
    ensures a + b == a + c <==> b == c
  {
    assert b == (a + b) - a && c == (a + c) - a;
  }

  lemma {:induction false} CountsAdd<T>(s: seq<T>, t: seq<T>, x: T)
    ensures multiset(s + t)[x] == multiset(s)[x] + multiset(t)[x]
  {
  }

  /** One occurrence of an element can be taken out. */
  lemma {:induction false} TakeOut<T>(s: seq<T>, x: T) returns (before: seq<T>, after: seq<T>)
    requires x in s
    ensures s == before + ([x] + after) && multiset(s) == multiset{x} + multiset(before + after)
  {
    var i :| 0 <= i < |s| && s[i] == x;
    before, after := s[..i], s[i + 1..];
    assert s == before + ([x] + after);
  }

  // ---------------------------------------------------------------- stable sorting

  /** `x` goes after every element that may precede it, counting from the end. */
  function Insert<T>(s: seq<T>, x: T, leq: (T, T) -> bool): seq<T> {
    if s == [] || leq(s[|s| - 1], x) then s + [x]
    else Insert(s[..|s| - 1], x, leq) + [s[|s| - 1]]
  }

  /** The stable sort of the host language, as repeated insertion. */
  function Sort<T>(s: seq<T>, leq: (T, T) -> bool): seq<T> {
    if s == [] then [] else Insert(Sort(s[..|s| - 1], leq), s[|s| - 1], leq)
  }

  ghost predicate Sorted<T>(s: seq<T>, leq: (T, T) -> bool) {
    forall i, j :: 0 <= i < j < |s| ==> leq(s[i], s[j])
  }

  ghost predicate TotalPreorderOn<T(!new)>(s: seq<T>, leq: (T, T) -> bool) {
    && (forall x, y :: x in s && y in s ==> leq(x, y) || leq(y, x))
    && (forall x, y, z :: x in s && y in s && z in s && leq(x, y) && leq(y, z) ==> leq(x, z))
  }

  ghost predicate AntisymmetricOn<T(!new)>(s: seq<T>, leq: (T, T) -> bool) {
    forall x, y :: x in s && y in s && leq(x, y) && leq(y, x) ==> x == y
  }

  lemma {:induction false} InsertPermutes<T>(s: seq<T>, x: T, leq: (T, T) -> bool)
    ensures multiset(Insert(s, x, leq)) == multiset(s) + multiset{x}
    decreases |s|
  {
    if s != [] && !leq(s[|s| - 1], x) {
      assert s == s[..|s| - 1] + [s[|s| - 1]];
      InsertPermutes(s[..|s| - 1], x, leq);
    }
  }

  lemma {:induction false} SortPermutes<T>(s: seq<T>, leq: (T, T) -> bool)
    ensures multiset(Sort(s, leq)) == multiset(s)
    ensures |Sort(s, leq)| == |s|
    decreases |s|
  {
    if s != [] {
      assert s == s[..|s| - 1] + [s[|s| - 1]];
      SortPermutes(s[..|s| - 1], leq);
      InsertPermutes(Sort(s[..|s| - 1], leq), s[|s| - 1], leq);
    }
    assert |multiset(Sort(s, leq))| == |multiset(s)|;
  }

  lemma {:induction false} SortMember<T>(s: seq<T>, leq: (T, T) -> bool, x: T)
    ensures x in Sort(s, leq) <==> x in s
  {
    SortPermutes(s, leq);
    assert x in multiset(Sort(s, leq)) <==> x in multiset(s);
  }

  /** Sorting repeats nothing. */
  lemma {:induction false} SortDistinct<T(!new)>(s: seq<T>, leq: (T, T) -> bool)
    requires Distinct(s)
    ensures Distinct(Sort(s, leq))
  {
    var r := Sort(s, leq);
    SortPermutes(s, leq);
    forall x ensures multiset(r)[x] <= 1 { DistinctCount(s, x); }
    OnceEach(r);
  }

  lemma {:induction false} OnceEach<T(!new)>(s: seq<T>)
    requires forall x :: multiset(s)[x] <= 1
    ensures Distinct(s)
  {
    forall i, j | 0 <= i < j < |s| ensures s[i] != s[j] {
      assert s == s[..j] + s[j..];
      assert multiset(s) == multiset(s[..j]) + multiset(s[j..]);
      assert s[i] in s[..j] && s[j] in s[j..];
      assert multiset(s)[s[j]] <= 1;
    }
  }

  lemma {:induction false} InsertMember<T>(s: seq<T>, x: T, leq: (T, T) -> bool, y: T)
    ensures y in Insert(s, x, leq) <==> y in s || y == x
  {
    InsertPermutes(s, x, leq);
    assert y in multiset(Insert(s, x, leq)) <==> y in multiset(s) || y == x;
  }

  lemma {:induction false} InsertSorts<T(!new)>(s: seq<T>, x: T, leq: (T, T) -> bool)
    requires Sorted(s, leq) && TotalPreorderOn(s + [x], leq)
    ensures Sorted(Insert(s, x, leq), leq)
    decreases |s|
  {
    if s != [] {
      var n := |s| - 1;
      var last := s[n];
      assert last in s + [x] && x in s + [x] && forall y :: y in s ==> y in s + [x];
      if leq(last, x) {
        forall i | 0 <= i < |s| ensures leq(s[i], x) {
          assert s[i] in s;
          assert i == n || leq(s[i], last);
        }
      } else {
        assert forall y :: y in s[..n] + [x] ==> y in s + [x];
        InsertSorts(s[..n], x, leq);
        var r := Insert(s[..n], x, leq);
        forall i | 0 <= i < |r| ensures leq(r[i], last) {
          InsertMember(s[..n], x, leq, r[i]);
        }
      }
    }
  }

  lemma {:induction false} SortSorts<T(!new)>(s: seq<T>, leq: (T, T) -> bool)
    requires TotalPreorderOn(s, leq)
    ensures Sorted(Sort(s, leq), leq)
    decreases |s|
  {
    if s != [] {
      var n := |s| - 1;
      assert forall y :: y in s[..n] ==> y in s;
      SortSorts(s[..n], leq);
      var r := Sort(s[..n], leq);
      forall y | y in r + [s[n]] ensures y in s { SortMember(s[..n], leq, y); }
      InsertSorts(r, s[n], leq);
    }
  }

  /** Under an antisymmetric order, a sorted arrangement of given elements is unique. */
  lemma {:induction false} SortedIsUnique<T(!new)>(s: seq<T>, t: seq<T>, leq: (T, T) -> bool)
    requires Distinct(s) && Distinct(t) && Sorted(s, leq) && Sorted(t, leq)
    requires AntisymmetricOn(s, leq)
    requires forall x :: x in s <==> x in t
    ensures s == t
    decreases |s|
  {
    DistinctFits(s, t);
    DistinctFits(t, s);
    if s != [] {
      var n := |s| - 1;
      SameLast(s, t, leq);
      SameWithoutLast(s, t, s[..n], t[..n]);
      assert AntisymmetricOn(s[..n], leq) by { assert forall x :: x in s[..n] ==> x in s; }
      SortedIsUnique(s[..n], t[..n], leq);
      assert s == s[..n] + [s[n]] && t == t[..n] + [t[n]];
    }
  }

  ghost predicate SameMembers<T(!new)>(s: seq<T>, t: seq<T>) {
    forall x :: x in s <==> x in t
  }

  lemma {:induction false} SameWithoutLast<T(!new)>(s: seq<T>, t: seq<T>, s': seq<T>, t': seq<T>)
    requires Distinct(s) && Distinct(t) && s != [] && t != [] && s[|s| - 1] == t[|t| - 1]
    requires SameMembers(s, t) && s' == s[..|s| - 1] && t' == t[..|t| - 1]
    ensures SameMembers(s', t')
  {
    forall x ensures x in s' <==> x in t' { DropLast(s, x); DropLast(t, x); }
  }

  lemma {:induction false} SameLast<T(!new)>(s: seq<T>, t: seq<T>, leq: (T, T) -> bool)
    requires Sorted(s, leq) && Sorted(t, leq) && |s| == |t| > 0
    requires AntisymmetricOn(s, leq)
    requires forall x :: x in s <==> x in t
    ensures s[|s| - 1] == t[|t| - 1]
  {
    var n := |s| - 1;
    assert s[n] in s && t[n] in t;
    var i :| 0 <= i < |t| && t[i] == s[n];
    var j :| 0 <= j < |s| && s[j] == t[n];
    if i < n && j < n { assert leq(t[i], t[n]) && leq(s[j], s[n]); }
  }

  lemma {:induction false} DropLast<T>(s: seq<T>, x: T)
    requires Distinct(s) && s != []
    ensures x in s[..|s| - 1] <==> x in s && x != s[|s| - 1]
  {
    var n := |s| - 1;
    if x in s[..n] {
      var i :| 0 <= i < n && s[..n][i] == x;
      assert s[i] == x;
    }
    if x in s && x != s[n] {
      var i :| 0 <= i < |s| && s[i] == x;
      assert s[..n][i] == x;
    }
  }

  lemma {:induction false} InsertAtEnd<T>(s: seq<T>, x: T, leq: (T, T) -> bool)
    requires s == [] || leq(s[|s| - 1], x)
    ensures Insert(s, x, leq) == s + [x]
  {
  }

  /** A sequence that is already sorted stays as it is. */
  lemma {:induction false} SortKeeps<T>(s: seq<T>, leq: (T, T) -> bool)
    requires Sorted(s, leq)
    ensures Sort(s, leq) == s
    decreases |s|
  {
    if s != [] {
      var n := |s| - 1;
      SortKeeps(s[..n], leq);
      InsertAtEnd(s[..n], s[n], leq);
      assert s == s[..n] + [s[n]];
    }
  }

  lemma {:induction false} ConcatAssoc<T>(a: seq<T>, b: seq<T>, c: seq<T>)
    ensures a + (b + c) == (a + b) + c
  {
  }

  lemma {:induction false} PrefixCancel<T>(a: seq<T>, b: seq<T>, c: seq<T>)
    ensures a + b == a + c <==> b == c
  {
    assert (a + b)[|a|..] == b && (a + c)[|a|..] == c;
  }

  /** A separator that occurs in neither left part cuts both sequences in the same place. */
  lemma {:induction false} SplitAtFirst<T>(a: seq<T>, b: seq<T>, c: seq<T>, d: seq<T>, x: T)
    requires a + [x] + b == c + [x] + d && x !in a && x !in c
    ensures a == c && b == d
  {
    var s, t := a + [x] + b, c + [x] + d;
    assert s[|a|] == x && t[|c|] == x;
    assert s[..|a|] == a && t[..|c|] == c && s[|a| + 1..] == b && t[|c| + 1..] == d;
  }
}
