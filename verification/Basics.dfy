// Facts about sets, sequences and remainders that several of the models need.
module Basics {

  lemma SubsetCard<T>(a: set<T>, b: set<T>)
    requires a <= b
    ensures |a| <= |b|
  {
    assert b == a + (b - a);
  }

  lemma SomeOf<T>(s: set<T>) returns (x: T)
    requires |s| > 0
    ensures x in s
  {
    x :| x in s;
  }

  // ---- sequences ----

  // The place of x; the length if it is not there.
  function Position<T(==)>(s: seq<T>, x: T): (i: nat)
    ensures i <= |s|
    ensures i < |s| ==> s[i] == x
    ensures forall j | 0 <= j < i :: s[j] != x
  {
    if s == [] || s[0] == x then 0 else 1 + Position(s[1..], x)
  }

  ghost predicate Unique<T>(s: seq<T>) {
    forall i: nat, j: nat :: i < j < |s| ==> Unlike(s, i, j)
  }

  ghost predicate Unlike<T>(s: seq<T>, i: nat, j: nat)
    requires i < |s| && j < |s|
  {
    s[i] != s[j]
  }

  lemma OnePlace<T>(s: seq<T>, i: nat)
    requires Unique(s) && i < |s|
    ensures forall j | 0 <= j < |s| && j != i :: s[j] != s[i]
  {
    forall j: nat | j < |s| && j != i
      ensures s[j] != s[i]
    {
      assert if i < j then Unlike(s, i, j) else Unlike(s, j, i);
    }
  }

  lemma UniquePart<T>(s: seq<T>, n: nat)
    requires Unique(s) && n <= |s|
    ensures Unique(s[..n])
  {
    forall i: nat, j: nat | i < j < n
      ensures Unlike(s[..n], i, j)
    {
      assert Unlike(s, i, j);
    }
  }

  lemma UniqueMore<T>(s: seq<T>, x: T)
    requires Unique(s) && x !in s
    ensures Unique(s + [x])
  {
    var s' := s + [x];
    forall i: nat, j: nat | i < j < |s'|
      ensures Unlike(s', i, j)
    {
      assert j < |s| ==> Unlike(s, i, j);
    }
  }

  lemma UniqueFront<T>(x: T, s: seq<T>)
    requires Unique(s) && x !in s
    ensures Unique([x] + s)
  {
    var s' := [x] + s;
    forall i: nat, j: nat | i < j < |s'|
      ensures Unlike(s', i, j)
    {
      assert i > 0 ==> Unlike(s, i - 1, j - 1);
    }
  }

  lemma UniqueWithout<T>(s: seq<T>, at: nat)
    requires Unique(s) && at < |s|
    ensures Unique(s[..at] + s[at + 1..]) && s[at] !in s[..at] + s[at + 1..]
  {
    OnePlace(s, at);
    var s' := s[..at] + s[at + 1..];
    forall i: nat, j: nat | i < j < |s'|
      ensures Unlike(s', i, j)
    {
      assert Unlike(s, if i < at then i else i + 1, if j < at then j else j + 1);
    }
  }

  lemma UniqueChanged<T>(s: seq<T>, at: nat, x: T)
    requires Unique(s) && at < |s| && x !in s
    ensures Unique(s[at := x])
  {
    var s' := s[at := x];
    forall i: nat, j: nat | i < j < |s'|
      ensures Unlike(s', i, j)
    {
      assert Unlike(s, i, j);
    }
  }

  lemma {:induction false} UniqueSize<T>(s: seq<T>, all: set<T>)
    requires Unique(s) && forall x :: x in all <==> x in s
    ensures |all| == |s|
  {
    if s != [] {
      var n := |s| - 1;
      UniquePart(s, n);
      OnePlace(s, n);
      assert s == s[..n] + [s[n]];
      UniqueSize(s[..n], all - {s[n]});
    }
  }

  // ---- remainders ----

  lemma DivModUnique(y: nat, q: nat, r: nat, n: nat)
    requires n > 0 && y == q * n + r && r < n
    ensures y % n == r
  {
    var d := y / n - q;
    assert d * n == (y / n) * n - q * n;
    assert d * n == r - y % n;
    MulAtLeast(d, n);
  }

  lemma MulAtLeast(d: int, n: nat)
    ensures d >= 1 ==> d * n >= n
    ensures d <= -1 ==> d * n + n <= 0
  {
  }
}
