/** Ordered traversal of sets and maps: how a BTreeMap or a BTreeSet is walked, and what a sort produces. */
module Ordering {
  import opened Common

  ghost predicate TotalOrder<K(!new)>(before: (K, K) -> bool) {
    && (forall a :: !before(a, a))
    && (forall a, b :: a == b || before(a, b) || before(b, a))
    && (forall a, b, c :: before(a, b) && before(b, c) ==> before(a, c))
  }

  ghost predicate Sorted<K>(s: seq<K>, before: (K, K) -> bool) {
    forall i, j | 0 <= i < j < |s| :: before(s[i], s[j])
  }

  lemma {:induction false} FindLeast<K(!new)>(s: set<K>, before: (K, K) -> bool) returns (m: K)
    requires TotalOrder(before) && s != {}
    ensures m in s && forall x | x in s :: x == m || before(m, x)
    decreases |s|
  {
    var a := SomeMember(s);
    var rest := s - {a};
    if rest == {} {
      m := a;
    } else {
      var b := FindLeast(rest, before);
      m := if before(a, b) then a else b;
    }
    forall x | x in s ensures x == m || before(m, x) {
      assert x == a || x in rest;
    }
  }

  function Least<K(!new, ==)>(s: set<K>, before: (K, K) -> bool): (m: K)
    requires TotalOrder(before) && s != {}
    ensures m in s && forall x | x in s :: x == m || before(m, x)
  {
    assert exists m :: m in s && forall x | x in s :: x == m || before(m, x) by {
      var m := FindLeast(s, before);
    }
    var m :| m in s && forall x | x in s :: x == m || before(m, x);
    m
  }

  /** The members of a set in ascending order. */
  function Ascending<K(!new, ==)>(s: set<K>, before: (K, K) -> bool): (r: seq<K>)
    requires TotalOrder(before)
    ensures Sorted(r, before) && forall x :: x in r <==> x in s
    decreases |s|
  {
    if s == {} then []
    else
      var m := Least(s, before);
      var rest := Ascending(s - {m}, before);
      assert forall i | 0 <= i < |rest| :: rest[i] in rest;
      [m] + rest
  }

  /** A sorted list is determined by its members. */
  lemma {:induction false} SortedUnique<K(!new)>(a: seq<K>, b: seq<K>, before: (K, K) -> bool)
    requires TotalOrder(before) && Sorted(a, before) && Sorted(b, before)
    requires forall x :: x in a <==> x in b
    ensures a == b
  {
    assert b != [] ==> b[0] in b;
    if a != [] {
      assert a[0] in b && b != [];
      assert b[0] in a;
      assert a[0] == b[0];
      forall x ensures x in a[1..] <==> x in b[1..] {
        assert x in a <==> x == a[0] || x in a[1..];
        assert x in b <==> x == b[0] || x in b[1..];
      }
      SortedUnique(a[1..], b[1..], before);
    }
  }

  predicate Less(a: int, b: int) { a < b }

  lemma LessIsTotal()
    ensures TotalOrder(Less)
  {
  }

  /** The members of a set of integers, ascending. */
  function InOrder(s: set<int>): (r: seq<int>)
    ensures forall i, j | 0 <= i < j < |r| :: r[i] < r[j]
    ensures forall x :: x in r <==> x in s
  {
    LessIsTotal();
    var r := Ascending(s, Less);
    assert forall i, j | 0 <= i < j < |r| :: Less(r[i], r[j]);
    r
  }

  /** Strings are compared character by character. */
  predicate Before(a: string, b: string) {
    if b == "" then false
    else if a == "" then true
    else a[0] < b[0] || (a[0] == b[0] && Before(a[1..], b[1..]))
  }

  lemma {:induction false} BeforeTotal(a: string, b: string)
    ensures Before(a, b) || Before(b, a) || a == b
    ensures !(Before(a, b) && Before(b, a))
    ensures !Before(a, a)
  {
    if a != "" {
      BeforeTotal(a[1..], a[1..]);
      if b != "" {
        BeforeTotal(a[1..], b[1..]);
        assert a == [a[0]] + a[1..] && b == [b[0]] + b[1..];
      }
    }
  }

  lemma {:induction false} BeforeTransitive(a: string, b: string, c: string)
    requires Before(a, b) && Before(b, c)
    ensures Before(a, c)
  {
    if a != "" && a[0] == b[0] == c[0] {
      BeforeTransitive(a[1..], b[1..], c[1..]);
    }
  }

  lemma BeforeIsTotal()
    ensures TotalOrder(Before)
  {
    forall a, b ensures !Before(a, a) && (a == b || Before(a, b) || Before(b, a)) {
      BeforeTotal(a, b);
    }
    forall a, b, c | Before(a, b) && Before(b, c) ensures Before(a, c) {
      BeforeTransitive(a, b, c);
    }
  }

  /** Pairs are compared by their first part, then by their second. */
  predicate PairBefore(a: (string, string), b: (string, string)) {
    Before(a.0, b.0) || (a.0 == b.0 && Before(a.1, b.1))
  }

  lemma PairBeforeIsTotal()
    ensures TotalOrder(PairBefore)
  {
    BeforeIsTotal();
    forall a, b ensures !PairBefore(a, a) && (a == b || PairBefore(a, b) || PairBefore(b, a)) {
      var (a0, a1) := a;
      var (b0, b1) := b;
      assert a == (a0, a1) && b == (b0, b1);
    }
  }

  /** The members of a set of pairs, ascending: the key order of a map. */
  function PairOrder(s: set<(string, string)>): (r: seq<(string, string)>)
    ensures Sorted(r, PairBefore) && forall x :: x in r <==> x in s
  {
    PairBeforeIsTotal();
    Ascending(s, PairBefore)
  }
}
