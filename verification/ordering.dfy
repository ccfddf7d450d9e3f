/** Total orders on keys, the least key of a finite set and the sorted listing of a set: the
    iteration order of Rust's `BTreeSet` and `BTreeMap`. */
module Ordering {
  import opened Sorting

  ghost predicate TotalOrder<T(!new)>(le: (T, T) -> bool) {
    && TotalPreorder(le)
    && forall a, b :: le(a, b) && le(b, a) ==> a == b
  }

  // ----- lexicographic order -----

  predicate LexLe(a: seq<int>, b: seq<int>) {
    a == [] || (b != [] && (a[0] < b[0] || (a[0] == b[0] && LexLe(a[1..], b[1..]))))
  }

  lemma {:induction false} LexTotal(a: seq<int>, b: seq<int>)
    ensures LexLe(a, b) || LexLe(b, a)
  {
    if a != [] && b != [] && a[0] == b[0] {
      LexTotal(a[1..], b[1..]);
    }
  }

  lemma {:induction false} LexAntisymmetric(a: seq<int>, b: seq<int>)
    requires LexLe(a, b) && LexLe(b, a)
    ensures a == b
  {
    if a != [] {
      LexAntisymmetric(a[1..], b[1..]);
      assert a == [a[0]] + a[1..] && b == [b[0]] + b[1..];
    }
  }

  lemma {:induction false} LexTransitive(a: seq<int>, b: seq<int>, c: seq<int>)
    requires LexLe(a, b) && LexLe(b, c)
    ensures LexLe(a, c)
  {
    if a != [] && a[0] == b[0] == c[0] {
      LexTransitive(a[1..], b[1..], c[1..]);
    }
  }

  function Codes(s: string): seq<int> {
    seq(|s|, i requires 0 <= i < |s| => s[i] as int)
  }

  lemma {:induction false} CodesInjective(a: string, b: string)
    requires Codes(a) == Codes(b)
    ensures a == b
  {
    assert |a| == |Codes(a)| == |Codes(b)| == |b|;
    forall i | 0 <= i < |a| ensures a[i] == b[i] {
      assert Codes(a)[i] == a[i] as int && Codes(b)[i] == b[i] as int;
    }
  }

  /** The order of Rust strings: by code points, which is also the order of their UTF-8 bytes. */
  predicate StringLe(a: string, b: string) {
    LexLe(Codes(a), Codes(b))
  }

  lemma {:induction false} StringIsTotalOrder()
    ensures TotalOrder(StringLe)
  {
    forall a: string, b: string ensures StringLe(a, b) || StringLe(b, a) {
      LexTotal(Codes(a), Codes(b));
    }
    forall a: string, b: string, c: string | StringLe(a, b) && StringLe(b, c) ensures StringLe(a, c) {
      LexTransitive(Codes(a), Codes(b), Codes(c));
    }
    forall a: string, b: string | StringLe(a, b) && StringLe(b, a) ensures a == b {
      LexAntisymmetric(Codes(a), Codes(b));
      CodesInjective(a, b);
    }
  }

  // ----- least element and listing of a set -----

  ghost predicate IsLeast<T(!new)>(le: (T, T) -> bool, s: set<T>, x: T) {
    x in s && forall y :: y in s ==> le(x, y)
  }

  lemma {:induction false} LeastExists<T(!new)>(le: (T, T) -> bool, s: set<T>)
    requires TotalOrder(le) && s != {}
    ensures exists x :: IsLeast(le, s, x)
    decreases |s|
  {
    var a :| a in s;
    var rest := s - {a};
    if rest == {} {
      assert s == {a};
      assert IsLeast(le, s, a);
    } else {
      LeastExists(le, rest);
      var b :| IsLeast(le, rest, b);
      var x := if le(a, b) then a else b;
      forall y | y in s ensures le(x, y) {
        assert y == a || y in rest;
      }
      assert IsLeast(le, s, x);
    }
  }

  lemma {:induction false} LeastUnique<T(!new)>(le: (T, T) -> bool, s: set<T>, x: T, y: T)
    requires TotalOrder(le) && IsLeast(le, s, x) && IsLeast(le, s, y)
    ensures x == y
  {
  }

  function Least<T(!new, ==)>(le: (T, T) -> bool, s: set<T>): (x: T)
    requires TotalOrder(le) && s != {}
    ensures IsLeast(le, s, x)
  {
    LeastExists(le, s);
    assert forall a, b :: IsLeast(le, s, a) && IsLeast(le, s, b) ==> a == b;
    var x :| x in s && forall y :: y in s ==> le(x, y);
    x
  }

  /** The elements of a set in ascending order. */
  function Listing<T(!new, ==)>(le: (T, T) -> bool, s: set<T>): seq<T>
    requires TotalOrder(le)
    decreases |s|
  {
    if s == {} then [] else
      var x := Least(le, s);
      [x] + Listing(le, s - {x})
  }

  ghost predicate Ascending<T(!new)>(le: (T, T) -> bool, q: seq<T>) {
    forall i, j :: 0 <= i < j < |q| ==> le(q[i], q[j]) && q[i] != q[j]
  }

  function Elements<T>(q: seq<T>): set<T> {
    set x | x in q
  }

  lemma {:induction false} ListingStep<T(!new)>(le: (T, T) -> bool, s: set<T>, x: T, rest: seq<T>)
    requires x in s && (forall y :: y in s ==> le(x, y))
    requires Elements(rest) == s - {x} && Ascending(le, rest)
    ensures Elements([x] + rest) == s && Ascending(le, [x] + rest)
  {
    var q := [x] + rest;
    forall y ensures y in q <==> y in s {
      assert y in rest <==> y in Elements(rest);
    }
    forall i, j | 0 <= i < j < |q| ensures le(q[i], q[j]) && q[i] != q[j] {
      assert q[j] == rest[j - 1] && rest[j - 1] in Elements(rest);
      if i > 0 {
        assert q[i] == rest[i - 1];
      }
    }
  }

  /** The listing holds each element once, ascending. */
  lemma {:induction false} ListingFacts<T(!new)>(le: (T, T) -> bool, s: set<T>)
    requires TotalOrder(le)
    ensures Elements(Listing(le, s)) == s
    ensures |Listing(le, s)| == |s|
    ensures Ascending(le, Listing(le, s))
    decreases |s|
  {
    if s != {} {
      var x := Least(le, s);
      ListingFacts(le, s - {x});
      ListingStep(le, s, x, Listing(le, s - {x}));
    }
  }

  lemma {:induction false} AscendingHead<T(!new)>(le: (T, T) -> bool, q: seq<T>)
    requires TotalOrder(le) && Ascending(le, q) && q != []
    ensures IsLeast(le, Elements(q), q[0])
    ensures Ascending(le, q[1..])
  {
    forall y | y in Elements(q) ensures le(q[0], y) {
      var i :| 0 <= i < |q| && q[i] == y;
      assert le(q[0], q[0]);
    }
    assert forall i :: 0 <= i < |q[1..]| ==> q[1..][i] == q[i + 1];
  }

  lemma {:induction false} TailElements<T>(q: seq<T>)
    requires q != [] && forall i, j :: 0 <= i < j < |q| ==> q[i] != q[j]
    ensures Elements(q[1..]) == Elements(q) - {q[0]}
  {
    var tail := q[1..];
    forall y ensures y in tail <==> y in q && y != q[0] {
      if y in tail {
        var i :| 0 <= i < |tail| && tail[i] == y;
        assert q[i + 1] == y;
      }
      if y in q && y != q[0] {
        var i :| 0 <= i < |q| && q[i] == y;
        assert tail[i - 1] == y;
      }
    }
  }

  /** An ascending sequence is the listing of its elements. */
  lemma {:induction false} AscendingIsListing<T(!new)>(le: (T, T) -> bool, q: seq<T>)
    requires TotalOrder(le) && Ascending(le, q)
    ensures Listing(le, Elements(q)) == q
  {
    var s := Elements(q);
    if q == [] {
      assert s == {};
    } else {
      assert q[0] in s;
      AscendingHead(le, q);
      LeastUnique(le, s, q[0], Least(le, s));
      TailElements(q);
      AscendingIsListing(le, q[1..]);
    }
  }
}
