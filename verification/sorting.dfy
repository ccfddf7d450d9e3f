/** Stable sorting by a total preorder, the behaviour of Rust's `sort_by`. */
module Sorting {

  ghost predicate TotalPreorder<T(!new)>(le: (T, T) -> bool) {
    && (forall a, b :: le(a, b) || le(b, a))
    && (forall a, b, c :: le(a, b) && le(b, c) ==> le(a, c))
  }

  ghost predicate SortedBy<T>(le: (T, T) -> bool, s: seq<T>) {
    forall i, j :: 0 <= i < j < |s| ==> le(s[i], s[j])
  }

  function Insert<T>(le: (T, T) -> bool, x: T, s: seq<T>): seq<T> {
    if s == [] || le(x, s[0]) then [x] + s else [s[0]] + Insert(le, x, s[1..])
  }

  function Sort<T>(le: (T, T) -> bool, s: seq<T>): seq<T> {
    if s == [] then [] else Insert(le, s[0], Sort(le, s[1..]))
  }

  lemma {:induction false} InsertKeepsElements<T>(le: (T, T) -> bool, x: T, s: seq<T>)
    ensures multiset(Insert(le, x, s)) == multiset([x] + s)
  {
    if s == [] || le(x, s[0]) {
    } else {
      InsertKeepsElements(le, x, s[1..]);
      assert s == [s[0]] + s[1..];
    }
  }

  ghost predicate Below<T>(le: (T, T) -> bool, x: T, s: seq<T>) {
    forall k :: 0 <= k < |s| ==> le(x, s[k])
  }

  lemma {:induction false} SortedCons<T>(le: (T, T) -> bool, x: T, s: seq<T>)
    requires Below(le, x, s) && SortedBy(le, s)
    ensures SortedBy(le, [x] + s)
  {
    forall i, j | 0 <= i < j < |s| + 1
      ensures le(([x] + s)[i], ([x] + s)[j])
    {
      assert ([x] + s)[j] == s[j - 1];
      if i > 0 {
        assert ([x] + s)[i] == s[i - 1];
      }
    }
  }

  lemma {:induction false} BelowTransfers<T>(le: (T, T) -> bool, x: T, s: seq<T>, t: seq<T>)
    requires Below(le, x, s) && multiset(s) == multiset(t)
    ensures Below(le, x, t)
  {
    forall k | 0 <= k < |t| ensures le(x, t[k]) {
      assert t[k] in multiset(t);
      assert t[k] in s;
    }
  }

  lemma {:induction false} InsertSorts<T(!new)>(le: (T, T) -> bool, x: T, s: seq<T>)
    requires TotalPreorder(le) && SortedBy(le, s)
    ensures SortedBy(le, Insert(le, x, s))
  {
    if s == [] {
    } else if le(x, s[0]) {
      assert Below(le, x, s) by {
        forall k | 0 <= k < |s| ensures le(x, s[k]) {
          assert k == 0 || le(s[0], s[k]);
        }
      }
      SortedCons(le, x, s);
    } else {
      InsertSorts(le, x, s[1..]);
      InsertKeepsElements(le, x, s[1..]);
      assert Below(le, s[0], [x] + s[1..]);
      BelowTransfers(le, s[0], [x] + s[1..], Insert(le, x, s[1..]));
      SortedCons(le, s[0], Insert(le, x, s[1..]));
    }
  }

  /** Sorting yields a sorted permutation. */
  lemma {:induction false} SortSorts<T(!new)>(le: (T, T) -> bool, s: seq<T>)
    requires TotalPreorder(le)
    ensures SortedBy(le, Sort(le, s))
    ensures multiset(Sort(le, s)) == multiset(s)
    ensures |Sort(le, s)| == |s|
  {
    if s == [] {
    } else {
      SortSorts(le, s[1..]);
      InsertSorts(le, s[0], Sort(le, s[1..]));
      InsertKeepsElements(le, s[0], Sort(le, s[1..]));
      assert s == [s[0]] + s[1..];
      assert |multiset(Sort(le, s))| == |multiset(s)|;
    }
  }

  /** Membership is unaffected by sorting. */
  lemma {:induction false} SortKeepsMembers<T(!new)>(le: (T, T) -> bool, s: seq<T>, x: T)
    requires TotalPreorder(le)
    ensures x in Sort(le, s) <==> x in s
  {
    SortSorts(le, s);
    assert x in Sort(le, s) <==> x in multiset(Sort(le, s));
    assert x in s <==> x in multiset(s);
  }

  /** Two equal multisets of pairwise distinct elements: one sequence is distinct when the other is. */
  lemma {:induction false} DistinctIsMultisetProperty<T>(s: seq<T>)
    ensures (forall i, j :: 0 <= i < j < |s| ==> s[i] != s[j]) <==> (forall x :: x in s ==> multiset(s)[x] == 1)
  {
    if s == [] {
    } else {
      var t := s[1..];
      DistinctIsMultisetProperty(t);
      assert s == [s[0]] + t;
      assert multiset(s) == multiset{s[0]} + multiset(t);
      if forall i, j :: 0 <= i < j < |s| ==> s[i] != s[j] {
        assert s[0] !in t;
        assert forall i, j :: 0 <= i < j < |t| ==> t[i] == s[i + 1] && t[j] == s[j + 1];
        forall x | x in s ensures multiset(s)[x] == 1 {
          assert x == s[0] || x in t;
        }
      }
      if forall x :: x in s ==> multiset(s)[x] == 1 {
        assert s[0] !in t by {
          assert s[0] in s && multiset(s)[s[0]] == 1;
          assert s[0] !in multiset(t);
        }
        forall x | x in t ensures multiset(t)[x] == 1 {
          assert x in s && x != s[0];
        }
        forall i, j | 0 <= i < j < |s| ensures s[i] != s[j] {
          if i == 0 {
            assert s[j] == t[j - 1];
          } else {
            assert s[i] == t[i - 1] && s[j] == t[j - 1];
          }
        }
      }
    }
  }

  lemma {:induction false} SortKeepsDistinct<T(!new)>(le: (T, T) -> bool, s: seq<T>)
    requires TotalPreorder(le)
    requires forall i, j :: 0 <= i < j < |s| ==> s[i] != s[j]
    ensures forall i, j :: 0 <= i < j < |s| ==> |Sort(le, s)| == |s| && Sort(le, s)[i] != Sort(le, s)[j]
  {
    var t := Sort(le, s);
    SortSorts(le, s);
    DistinctIsMultisetProperty(s);
    DistinctIsMultisetProperty(t);
    forall x | x in t ensures multiset(t)[x] == 1 {
      SortKeepsMembers(le, s, x);
    }
  }
}
