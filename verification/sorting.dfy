/**
 * The sorted copy the order check compares against:
 * `[...tokens].sort((a, b) => key(a).localeCompare(key(b), ...))`.
 * `Array.prototype.sort` is stable, and for a comparator that is a total
 * preorder the stable result is unique, so any stable sort gives the same
 * sequence; this one is insertion sort.
 */
module Sorting {
  import opened Text

  /** No element sorts strictly after a later one. */
  predicate SortedBy<T>(s: seq<T>, key: T -> string)
  {
    forall i, j :: 0 <= i < j < |s| ==> Compare(key(s[i]), key(s[j])) <= 0
  }

  /** Places `x` after every element of `s` that does not sort after it. */
  function Insert<T>(s: seq<T>, x: T, key: T -> string): (r: seq<T>)
    ensures |r| == |s| + 1
  {
    if s == [] then [x]
    else
      var n := |s| - 1;
      if Compare(key(s[n]), key(x)) <= 0 then s + [x]
      else
        assert s == s[..n] + [s[n]];
        Insert(s[..n], x, key) + [s[n]]
  }

  /** The stably sorted copy of `s`. */
  function SortBy<T>(s: seq<T>, key: T -> string): (r: seq<T>)
    ensures |r| == |s|
  {
    if s == [] then []
    else
      var n := |s| - 1;
      assert s == s[..n] + [s[n]];
      Insert(SortBy(s[..n], key), s[n], key)
  }

  lemma {:induction false} InsertPermutation<T>(s: seq<T>, x: T, key: T -> string)
    ensures multiset(Insert(s, x, key)) == multiset(s) + multiset{x}
  {
    if s != [] {
      var n := |s| - 1;
      assert s == s[..n] + [s[n]];
      if Compare(key(s[n]), key(x)) > 0 {
        InsertPermutation(s[..n], x, key);
      }
    }
  }

  /** The sorted copy holds the same records, each as often: it is a permutation. */
  lemma {:induction false} SortByPermutation<T>(s: seq<T>, key: T -> string)
    ensures multiset(SortBy(s, key)) == multiset(s)
  {
    if s != [] {
      var n := |s| - 1;
      assert s == s[..n] + [s[n]];
      SortByPermutation(s[..n], key);
      InsertPermutation(SortBy(s[..n], key), s[n], key);
    }
  }

  /** Every element of the insertion is `x` or an element of `s`. */
  lemma {:induction false} InsertElements<T>(s: seq<T>, x: T, key: T -> string, i: nat)
    requires i < |Insert(s, x, key)|
    ensures Insert(s, x, key)[i] == x || Insert(s, x, key)[i] in s
  {
    if s != [] {
      var n := |s| - 1;
      if Compare(key(s[n]), key(x)) > 0 && i < |s| {
        InsertElements(s[..n], x, key, i);
      }
    }
  }

  lemma {:induction false} InsertSorted<T>(s: seq<T>, x: T, key: T -> string)
    requires SortedBy(s, key)
    ensures SortedBy(Insert(s, x, key), key)
  {
    if s != [] {
      var n := |s| - 1;
      var last := s[n];
      if Compare(key(last), key(x)) > 0 {
        var front := s[..n];
        InsertSorted(front, x, key);
        var ins := Insert(front, x, key);
        CompareFlip(key(last), key(x));
        forall i | 0 <= i < |ins|
          ensures Compare(key(ins[i]), key(last)) <= 0
        {
          InsertElements(front, x, key, i);
        }
        var r := ins + [last];
        assert Insert(s, x, key) == r;
        forall i, j | 0 <= i < j < |r|
          ensures Compare(key(r[i]), key(r[j])) <= 0
        {
          if j < |ins| {
            assert r[i] == ins[i] && r[j] == ins[j];
          }
        }
      } else {
        var r := s + [x];
        forall i, j | 0 <= i < j < |r|
          ensures Compare(key(r[i]), key(r[j])) <= 0
        {
          if j == |s| && i < n {
            CompareTransitive(key(s[i]), key(last), key(x));
          }
        }
      }
    }
  }

  /** The copy is sorted. */
  lemma {:induction false} SortBySorted<T>(s: seq<T>, key: T -> string)
    ensures SortedBy(SortBy(s, key), key)
  {
    if s != [] {
      var n := |s| - 1;
      SortBySorted(s[..n], key);
      InsertSorted(SortBy(s[..n], key), s[n], key);
    }
  }

  /** A sequence that is already sorted, ties included, is its own sorted copy. */
  lemma {:induction false} SortByIdentity<T>(s: seq<T>, key: T -> string)
    requires SortedBy(s, key)
    ensures SortBy(s, key) == s
  {
    if s != [] {
      var n := |s| - 1;
      assert SortedBy(s[..n], key);
      SortByIdentity(s[..n], key);
      if n > 0 {
        assert s[..n][n - 1] == s[n - 1];
      }
      assert s[..n] + [s[n]] == s;
    }
  }

  /** The elements of `s` that tie with `x` under the comparator, in their order in `s`. */
  function TiesWith<T>(s: seq<T>, x: T, key: T -> string): seq<T>
  {
    if s == [] then []
    else
      var n := |s| - 1;
      TiesWith(s[..n], x, key) + (if Compare(key(s[n]), key(x)) == 0 then [s[n]] else [])
  }

  lemma {:induction false} TiesWithElements<T>(s: seq<T>, x: T, key: T -> string, y: T)
    requires y in TiesWith(s, x, key)
    ensures y in s && Compare(key(y), key(x)) == 0
  {
    var n := |s| - 1;
    if y in TiesWith(s[..n], x, key) {
      TiesWithElements(s[..n], x, key, y);
    }
  }

  lemma TiesWithAppend<T>(s: seq<T>, y: T, x: T, key: T -> string)
    ensures TiesWith(s + [y], x, key) ==
      TiesWith(s, x, key) + (if Compare(key(y), key(x)) == 0 then [y] else [])
  {
    assert (s + [y])[..|s|] == s;
  }

  lemma {:induction false} InsertTies<T>(s: seq<T>, y: T, x: T, key: T -> string)
    ensures TiesWith(Insert(s, y, key), x, key) ==
      TiesWith(s, x, key) + (if Compare(key(y), key(x)) == 0 then [y] else [])
  {
    if s == [] {
      TiesWithAppend([], y, x, key);
    } else {
      var n := |s| - 1;
      var last := s[n];
      if Compare(key(last), key(y)) <= 0 {
        TiesWithAppend(s, y, x, key);
      } else {
        InsertTies(s[..n], y, x, key);
        TiesWithAppend(Insert(s[..n], y, key), last, x, key);
        if Compare(key(y), key(x)) == 0 {
          CompareZeroIffSameFold(key(y), key(x));
          assert Compare(key(last), key(x)) == Compare(key(last), key(y));
        }
      }
    }
  }

  /** The sort is stable: the elements that tie with any `x` keep their input order. */
  lemma {:induction false} SortByStable<T>(s: seq<T>, x: T, key: T -> string)
    ensures TiesWith(SortBy(s, key), x, key) == TiesWith(s, x, key)
  {
    if s != [] {
      var n := |s| - 1;
      SortByStable(s[..n], x, key);
      InsertTies(SortBy(s[..n], key), s[n], x, key);
    }
  }

  /** An element ties with itself. */
  lemma TiesSelf<T>(y: T, key: T -> string)
    ensures Compare(key(y), key(y)) == 0
  {
    CompareZeroIffSameFold(key(y), key(y));
  }

  /** The last element of `r` ends the class of every element it ties with. */
  lemma TiesOfLast<T>(r: seq<T>, x: T, key: T -> string)
    requires r != [] && Compare(key(r[|r| - 1]), key(x)) == 0
    ensures TiesWith(r, x, key) == TiesWith(r[..|r| - 1], x, key) + [r[|r| - 1]]
  {
    var rn := |r| - 1;
    assert r == r[..rn] + [r[rn]];
    TiesWithAppend(r[..rn], r[rn], x, key);
  }

  /** The last element of `r` occurs in any sequence with the same classes of ties. */
  lemma LastOccurs<T>(r: seq<T>, q: seq<T>, key: T -> string)
    requires r != []
    requires forall x :: TiesWith(r, x, key) == TiesWith(q, x, key)
    ensures r[|r| - 1] in q
  {
    var m := r[|r| - 1];
    TiesSelf(m, key);
    TiesOfLast(r, m, key);
    assert m in TiesWith(q, m, key);
    TiesWithElements(q, m, key, m);
  }

  /** No element of a sorted sequence sorts after its last one. */
  lemma LastIsGreatest<T>(q: seq<T>, y: T, key: T -> string)
    requires SortedBy(q, key) && y in q
    ensures Compare(key(y), key(q[|q| - 1])) <= 0
  {
    var i :| 0 <= i < |q| && q[i] == y;
    if i == |q| - 1 {
      TiesSelf(y, key);
    }
  }

  lemma CancelLast<T>(a: seq<T>, b: seq<T>, e: seq<T>)
    requires a + e == b + e
    ensures a == b
  {
    assert a == (a + e)[..|a|];
    assert b == (b + e)[..|b|];
  }

  lemma SameLast<T>(a: seq<T>, b: seq<T>, m: T, p: T)
    requires a + [m] == b + [p]
    ensures m == p
  {
    assert (a + [m])[|a|] == m && (b + [p])[|b|] == p;
  }

  /**
   * Of two sorted sequences with the same classes of ties, the second is not
   * empty when the first is not, and their last elements are the same.
   */
  lemma LastAgree<T>(r: seq<T>, q: seq<T>, key: T -> string)
    requires r != [] && SortedBy(r, key) && SortedBy(q, key)
    requires forall x :: TiesWith(r, x, key) == TiesWith(q, x, key)
    ensures q != [] && r[|r| - 1] == q[|q| - 1]
  {
    LastOccurs(r, q, key);
    LastOccurs(q, r, key);
    var m, p := r[|r| - 1], q[|q| - 1];
    LastIsGreatest(q, m, key);
    LastIsGreatest(r, p, key);
    CompareFlip(key(m), key(p));
    TiesSelf(m, key);
    TiesOfLast(r, m, key);
    TiesOfLast(q, m, key);
    assert TiesWith(r, m, key) == TiesWith(q, m, key);
    SameLast(TiesWith(r[..|r| - 1], m, key), TiesWith(q[..|q| - 1], m, key), m, p);
  }

  /**
   * Two sorted sequences in which every class of tied elements appears in
   * the same order are equal.
   */
  lemma {:induction false} SortedTiesUnique<T>(r: seq<T>, q: seq<T>, key: T -> string)
    requires SortedBy(r, key) && SortedBy(q, key)
    requires forall x :: TiesWith(r, x, key) == TiesWith(q, x, key)
    ensures r == q
    decreases |r|
  {
    if r != [] {
      LastAgree(r, q, key);
      var rn, qn := |r| - 1, |q| - 1;
      var m := r[rn];
      assert r == r[..rn] + [m] && q == q[..qn] + [m];
      forall x
        ensures TiesWith(r[..rn], x, key) == TiesWith(q[..qn], x, key)
      {
        TiesWithAppend(r[..rn], m, x, key);
        TiesWithAppend(q[..qn], m, x, key);
        var e := if Compare(key(m), key(x)) == 0 then [m] else [];
        CancelLast(TiesWith(r[..rn], x, key), TiesWith(q[..qn], x, key), e);
      }
      SortedTiesUnique(r[..rn], q[..qn], key);
    } else if q != [] {
      LastAgree(q, r, key);
      assert false;
    }
  }

  /**
   * `SortBy` is the only stable sort: any sorted arrangement of `s` that keeps
   * each class of tied elements in its input order is `SortBy(s, key)`.
   */
  lemma StableSortUnique<T>(s: seq<T>, r: seq<T>, key: T -> string)
    requires SortedBy(r, key)
    requires forall x :: TiesWith(r, x, key) == TiesWith(s, x, key)
    ensures r == SortBy(s, key)
  {
    SortBySorted(s, key);
    forall x
      ensures TiesWith(r, x, key) == TiesWith(SortBy(s, key), x, key)
    {
      SortByStable(s, x, key);
    }
    SortedTiesUnique(r, SortBy(s, key), key);
  }
}
