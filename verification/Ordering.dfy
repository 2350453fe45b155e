/** Lexicographic order on text, and the sorted listing of a finite set. */
module Ordering {

  predicate TextLe(a: string, b: string) {
    a == "" || (b != "" && (a[0] < b[0] || (a[0] == b[0] && TextLe(a[1..], b[1..]))))
  }

  lemma {:induction false} TextLeTotal(a: string, b: string)
    ensures TextLe(a, b) || TextLe(b, a)
  {
    if a != "" && b != "" && a[0] == b[0] {
      TextLeTotal(a[1..], b[1..]);
    }
  }

  lemma {:induction false} TextLeAntisymmetric(a: string, b: string)
    requires TextLe(a, b) && TextLe(b, a)
    ensures a == b
  {
    if a != "" {
      TextLeAntisymmetric(a[1..], b[1..]);
      assert a == [a[0]] + a[1..] && b == [b[0]] + b[1..];
    }
  }

  lemma {:induction false} TextLeTransitive(a: string, b: string, c: string)
    requires TextLe(a, b) && TextLe(b, c)
    ensures TextLe(a, c)
  {
    if a != "" && a[0] == b[0] && b[0] == c[0] {
      TextLeTransitive(a[1..], b[1..], c[1..]);
    }
  }

  /** The texts agree before place `k`, and `a` is the smaller one there. */
  predicate SmallerAt(a: string, b: string, k: nat) {
    k < |a| && k < |b| && a[..k] == b[..k] && a[k] < b[k]
  }

  lemma SmallerHead(a: string, b: string, k: nat)
    requires SmallerAt(a, b, k)
    ensures if k == 0 then a[0] < b[0] else a[0] == b[0]
  {
    if k > 0 {
      assert a[..k][0] == a[0] && b[..k][0] == b[0];
    }
  }

  /** The comparison of texts: a prefix comes first, otherwise the first difference decides. */
  lemma {:induction false} TextLeExact(a: string, b: string)
    ensures TextLe(a, b) <==> a <= b || exists k: nat :: SmallerAt(a, b, k)
  {
    if a != "" && b != "" && a[0] == b[0] {
      TextLeExact(a[1..], b[1..]);
      assert a == [a[0]] + a[1..] && b == [b[0]] + b[1..];
      if k: nat :| SmallerAt(a[1..], b[1..], k) {
        assert a[..k + 1] == [a[0]] + a[1..][..k] && b[..k + 1] == [b[0]] + b[1..][..k];
        assert SmallerAt(a, b, k + 1);
      }
      if k: nat :| SmallerAt(a, b, k) {
        assert k > 0;
        assert a[1..][..k - 1] == a[..k][1..] && b[1..][..k - 1] == b[..k][1..];
        assert SmallerAt(a[1..], b[1..], k - 1);
      }
    } else if a != "" && b != "" {
      if a[0] < b[0] {
        assert SmallerAt(a, b, 0);
      }
      forall k: nat | SmallerAt(a, b, k) ensures a[0] <= b[0] {
        SmallerHead(a, b, k);
      }
    }
  }

  ghost predicate TotalOrder<T(!new)>(le: (T, T) -> bool) {
    && (forall x, y :: le(x, y) || le(y, x))
    && (forall x, y :: le(x, y) && le(y, x) ==> x == y)
    && (forall x, y, z :: le(x, y) && le(y, z) ==> le(x, z))
  }

  lemma TextOrder()
    ensures TotalOrder(TextLe)
  {
    forall x, y ensures TextLe(x, y) || TextLe(y, x) { TextLeTotal(x, y); }
    forall x, y | TextLe(x, y) && TextLe(y, x) ensures x == y { TextLeAntisymmetric(x, y); }
    forall x, y, z | TextLe(x, y) && TextLe(y, z) ensures TextLe(x, z) { TextLeTransitive(x, y, z); }
  }

  /** `r` lists every member of `s` exactly once. */
  ghost predicate Lists<T(!new)>(r: seq<T>, s: set<T>) {
    && (forall x :: x in r <==> x in s)
    && (forall i, j :: 0 <= i < j < |r| ==> r[i] != r[j])
  }

  ghost predicate Ascending<T>(r: seq<T>, le: (T, T) -> bool) {
    forall i, j :: 0 <= i < j < |r| ==> le(r[i], r[j])
  }

  lemma {:induction false} LeastExists<T(!new)>(s: set<T>, le: (T, T) -> bool) returns (m: T)
    requires TotalOrder(le) && s != {}
    ensures m in s && forall x :: x in s ==> le(m, x)
    decreases |s|
  {
    var y :| y in s;
    m := y;
    if s != {y} {
      var rest := s - {y};
      assert s == rest + {y};
      m := LeastExists(rest, le);
      if le(y, m) {
        m := y;
      }
    }
  }

  /** The builtin `sorted` applied to a set. */
  ghost function Sorted<T(!new)>(s: set<T>, le: (T, T) -> bool): (r: seq<T>)
    requires TotalOrder(le)
    ensures Lists(r, s) && Ascending(r, le)
    decreases |s|
  {
    if s == {} then [] else
      assert exists m :: m in s && forall x :: x in s ==> le(m, x) by {
        var m := LeastExists(s, le);
      }
      var m :| m in s && forall x :: x in s ==> le(m, x);
      [m] + Sorted(s - {m}, le)
  }

  lemma SortedHead<T(!new)>(s: set<T>, le: (T, T) -> bool, m: T)
    requires TotalOrder(le) && m in s && forall x :: x in s ==> le(m, x)
    ensures Sorted(s, le) == [m] + Sorted(s - {m}, le)
  {
    hide Lists, Ascending;
  }

  lemma SortedNone<T(!new)>(le: (T, T) -> bool)
    requires TotalOrder(le)
    ensures Sorted({}, le) == []
  {
  }

  method SortSet<T(!new, ==)>(s: set<T>, le: (T, T) -> bool) returns (r: seq<T>)
    requires TotalOrder(le)
    ensures r == Sorted(s, le)
  {
    hide Lists, Ascending, Sorted, TotalOrder;
    SortedNone(le);
    r := [];
    var rest := s;
    while rest != {}
      invariant Sorted(s, le) == r + Sorted(rest, le)
      decreases |rest|
    {
      ghost var least := LeastExists(rest, le);
      var m :| m in rest && forall x | x in rest :: le(m, x);
      SortedHead(rest, le, m);
      r := r + [m];
      rest := rest - {m};
    }
  }
}
