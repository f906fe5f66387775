/** Ordered reads: `OrderBy` over a comparator, and the keys of a table in ascending order. */
module Sorting {

  /** Every two elements of `s` are comparable under `le`. */
  ghost predicate TotalOn<T>(s: seq<T>, le: (T, T) -> bool) {
    forall i, j :: 0 <= i < |s| && 0 <= j < |s| ==> le(s[i], s[j]) || le(s[j], s[i])
  }

  /** Each element is `le` its successor. */
  ghost predicate SortedBy<T>(s: seq<T>, le: (T, T) -> bool) {
    forall i :: 0 < i < |s| ==> le(s[i - 1], s[i])
  }

  /** `x` placed before the first element it is `le`. */
  function Insert<T>(x: T, r: seq<T>, le: (T, T) -> bool): seq<T> {
    if r == [] || le(x, r[0]) then [x] + r else [r[0]] + Insert(x, r[1..], le)
  }

  /** Inserting into a sorted sequence adds `x` and keeps it sorted. */
  lemma {:induction false} InsertSorted<T>(x: T, r: seq<T>, le: (T, T) -> bool)
    requires SortedBy(r, le)
    requires forall i :: 0 <= i < |r| ==> le(x, r[i]) || le(r[i], x)
    ensures multiset(Insert(x, r, le)) == multiset(r) + multiset{x}
    ensures SortedBy(Insert(x, r, le), le)
    ensures Insert(x, r, le)[0] == x || (r != [] && Insert(x, r, le)[0] == r[0])
  {
    if r != [] && !le(x, r[0]) {
      InsertSorted(x, r[1..], le);
      assert r == [r[0]] + r[1..];
    }
  }

  /** `OrderBy`: insertion sort by `le`. */
  function SortBy<T>(s: seq<T>, le: (T, T) -> bool): seq<T> {
    if s == [] then [] else Insert(s[0], SortBy(s[1..], le), le)
  }

  /** The tail of a totally ordered sequence is totally ordered, and its head compares with
      every element of it. */
  lemma TotalOnTail<T>(s: seq<T>, le: (T, T) -> bool)
    requires s != [] && TotalOn(s, le)
    ensures TotalOn(s[1..], le)
    ensures forall y :: y in s[1..] ==> le(s[0], y) || le(y, s[0])
  {
    forall i, j | 0 <= i < |s[1..]| && 0 <= j < |s[1..]|
      ensures le(s[1..][i], s[1..][j]) || le(s[1..][j], s[1..][i])
    {
      assert s[1..][i] == s[i + 1] && s[1..][j] == s[j + 1];
    }
    forall y | y in s[1..] ensures le(s[0], y) || le(y, s[0]) {
      var j :| 0 <= j < |s[1..]| && s[1..][j] == y;
      assert s[j + 1] == y;
    }
  }

  /** What compares with every element of `s` compares with every element of a permutation
      of `s`. */
  lemma ComparableToAll<T>(x: T, r: seq<T>, s: seq<T>, le: (T, T) -> bool)
    requires multiset(r) == multiset(s)
    requires forall y :: y in s ==> le(x, y) || le(y, x)
    ensures forall i :: 0 <= i < |r| ==> le(x, r[i]) || le(r[i], x)
  {
    forall i | 0 <= i < |r| ensures le(x, r[i]) || le(r[i], x) {
      assert r[i] in multiset(r);
    }
  }

  /** Under a total `le`, `SortBy` returns a permutation of `s` sorted by `le`. */
  lemma {:induction false} SortBySorts<T>(s: seq<T>, le: (T, T) -> bool)
    requires TotalOn(s, le)
    ensures multiset(SortBy(s, le)) == multiset(s)
    ensures SortedBy(SortBy(s, le), le)
  {
    if s != [] {
      TotalOnTail(s, le);
      SortBySorts(s[1..], le);
      var r := SortBy(s[1..], le);
      ComparableToAll(s[0], r, s[1..], le);
      InsertSorted(s[0], r, le);
      assert s == [s[0]] + s[1..];
    }
  }

  // ---------- keys of a table in ascending order ----------

  /** A non-empty set has an element. */
  lemma HasElement<T>(ks: set<T>)
    requires ks != {}
    ensures exists x :: x in ks
  {
  }

  ghost function Pick<T>(ks: set<T>): (x: T)
    requires ks != {}
    ensures x in ks
  {
    HasElement(ks);
    var x :| x in ks;
    x
  }

  lemma MinExists(ks: set<int>)
    requires ks != {}
    ensures exists m :: m in ks && forall y :: y in ks ==> m <= y
  {
    var x := Pick(ks);
    if ks == {x} {
      assert forall y :: y in ks ==> x <= y;
    } else {
      MinExists(ks - {x});
      var m :| m in ks - {x} && forall y :: y in ks - {x} ==> m <= y;
      if x < m {
        assert forall y :: y in ks ==> x <= y by {
          forall y | y in ks ensures x <= y {
            if y != x { assert y in ks - {x}; }
          }
        }
      } else {
        assert forall y :: y in ks ==> m <= y by {
          forall y | y in ks ensures m <= y {
            if y != x { assert y in ks - {x}; }
          }
        }
      }
    }
  }

  function MinOf(ks: set<int>): (m: int)
    requires ks != {}
    ensures m in ks && forall y :: y in ks ==> m <= y
  {
    MinExists(ks);
    var m :| m in ks && forall y :: y in ks ==> m <= y;
    m
  }

  predicate StrictlyIncreasing(s: seq<int>) {
    forall i, j :: 0 <= i < j < |s| ==> s[i] < s[j]
  }

  /** The elements of `ks`, each once, in ascending order. */
  function Ascending(ks: set<int>): (r: seq<int>)
    ensures StrictlyIncreasing(r)
    ensures forall k :: k in ks <==> k in r
    ensures |r| == |ks|
    decreases |ks|
  {
    if ks == {} then []
    else
      var m := MinOf(ks);
      var rest := Ascending(ks - {m});
      [m] + rest
  }
}
