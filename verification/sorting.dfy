/**
  `Array.prototype.sort` with a comparator. The language requires the sort to
  be stable; it is modelled here as insertion sort, with `le(a, b)` standing
  for `compare(a, b) <= 0`. The result is ordered, a permutation, and keeps
  elements that compare equal in their input order; when no two distinct
  elements compare equal, it is the only ordered arrangement.
 */
module Sorting {

  import opened Seqs

  datatype Direction = Asc | Desc

  function Flip(d: Direction): (r: Direction)
    ensures r != d
  {
    if d == Asc then Desc else Asc
  }

  /** A comparator that orders every pair and is transitive. */
  ghost predicate TotalPreorder<T(!new)>(le: (T, T) -> bool) {
    && (forall a, b :: le(a, b) || le(b, a))
    && (forall a, b, c :: le(a, b) && le(b, c) ==> le(a, c))
  }

  predicate SortedBy<T>(s: seq<T>, le: (T, T) -> bool) {
    forall i, j :: 0 <= i < j < |s| ==> le(s[i], s[j])
  }

  /** Places `x` before the first element it is not after. */
  function Insert<T>(x: T, s: seq<T>, le: (T, T) -> bool): (r: seq<T>)
    ensures multiset(r) == multiset(s) + multiset{x}
  {
    if |s| == 0 then [x]
    else if le(x, s[0]) then [x] + s
    else
      assert s == [s[0]] + s[1..];
      [s[0]] + Insert(x, s[1..], le)
  }

  /** The stable sort of `s` by `le`. */
  function Sort<T>(s: seq<T>, le: (T, T) -> bool): (r: seq<T>)
    ensures multiset(r) == multiset(s)
  {
    if |s| == 0 then []
    else
      assert s == [s[0]] + s[1..];
      Insert(s[0], Sort(s[1..], le), le)
  }

  lemma {:induction false} InsertSorted<T(!new)>(x: T, s: seq<T>, le: (T, T) -> bool)
    requires TotalPreorder(le)
    requires SortedBy(s, le)
    ensures SortedBy(Insert(x, s, le), le)
  {
    if |s| > 0 && !le(x, s[0]) {
      var tail := Insert(x, s[1..], le);
      InsertSorted(x, s[1..], le);
      forall y | y in tail
        ensures le(s[0], y)
      {
        assert y in multiset(tail);
      }
    }
  }

  /** The sort result is ordered by any comparator that is a total preorder. */
  lemma {:induction false} SortSorted<T(!new)>(s: seq<T>, le: (T, T) -> bool)
    requires TotalPreorder(le)
    ensures SortedBy(Sort(s, le), le)
  {
    if |s| > 0 {
      SortSorted(s[1..], le);
      InsertSorted(s[0], Sort(s[1..], le), le);
    }
  }

  /** Two orderings of the same elements by a comparator that separates any
      two distinct elements are the same sequence. */
  lemma {:induction false} SortedUnique<T>(a: seq<T>, b: seq<T>, le: (T, T) -> bool)
    requires multiset(a) == multiset(b)
    requires SortedBy(a, le) && SortedBy(b, le)
    requires forall x, y | x in a && y in a :: le(x, y) && le(y, x) ==> x == y
    ensures a == b
  {
    if |a| == 0 {
      assert |b| == |multiset(b)| == 0;
    } else {
      assert |b| == |multiset(b)| == |a|;
      HeadsEqual(a, b, le);
      assert multiset(a[1..]) == multiset(b[1..]) by {
        DropHead(a);
        DropHead(b);
      }
      assert SortedBy(a[1..], le) && SortedBy(b[1..], le) by {
        SortedTail(a, le);
        SortedTail(b, le);
      }
      assert forall x, y | x in a[1..] && y in a[1..] :: le(x, y) && le(y, x) ==> x == y by {
        assert forall x | x in a[1..] :: x in a;
      }
      SortedUnique(a[1..], b[1..], le);
      DropHead(a);
      DropHead(b);
    }
  }

  lemma {:induction false} SortedTail<T>(s: seq<T>, le: (T, T) -> bool)
    requires |s| > 0 && SortedBy(s, le)
    ensures SortedBy(s[1..], le)
  {
    forall i, j | 0 <= i < j < |s| - 1
      ensures le(s[1..][i], s[1..][j])
    {
      assert le(s[i + 1], s[j + 1]);
    }
  }

  lemma {:induction false} HeadsEqual<T>(a: seq<T>, b: seq<T>, le: (T, T) -> bool)
    requires |a| > 0 && multiset(a) == multiset(b)
    requires SortedBy(a, le) && SortedBy(b, le)
    requires forall x, y | x in a && y in a :: le(x, y) && le(y, x) ==> x == y
    ensures a[0] == b[0]
  {
    assert a[0] in multiset(b) && b[0] in multiset(b);
    var k :| 0 <= k < |b| && b[k] == a[0];
    var m :| 0 <= m < |a| && a[m] == b[0];
    if k > 0 && m > 0 {
      assert le(b[0], b[k]);
      assert le(a[0], a[m]);
      assert a[0] in a && b[0] in a;
    }
  }

  /** Sorting by the swapped comparator yields the reverse of the sort, as long
      as no two distinct elements compare equal. */
  lemma {:induction false} SortMirror<T(!new)>(s: seq<T>, le: (T, T) -> bool, ge: (T, T) -> bool)
    requires TotalPreorder(le)
    requires forall a, b :: ge(a, b) == le(b, a)
    requires forall x, y | x in s && y in s :: le(x, y) && le(y, x) ==> x == y
    ensures Sort(s, ge) == Reverse(Sort(s, le))
  {
    var up := Sort(s, le);
    var down := Sort(s, ge);
    SortSorted(s, le);
    SortSorted(s, ge);
    ReversePermutation(up);
    forall x | x in down
      ensures x in s
    {
      assert x in multiset(down);
    }
    SortedUnique(down, Reverse(up), ge);
  }

  /** The elements that compare equal to `x`: neither is before the other. */
  function EquivalentTo<T>(le: (T, T) -> bool, x: T): T -> bool {
    y => le(x, y) && le(y, x)
  }

  lemma {:induction false} FilterCons<T(!new)>(a: T, r: seq<T>, q: T -> bool)
    ensures Filter([a] + r, q) == if q(a) then [a] + Filter(r, q) else Filter(r, q)
  {
    assert ([a] + r)[0] == a && ([a] + r)[1..] == r;
  }

  lemma {:induction false} InsertKeepsOthers<T(!new)>(y: T, t: seq<T>, le: (T, T) -> bool, q: T -> bool)
    requires !q(y)
    ensures Filter(Insert(y, t, le), q) == Filter(t, q)
  {
    if |t| == 0 {
      FilterCons(y, [], q);
    } else if le(y, t[0]) {
      FilterCons(y, t, q);
    } else {
      assert t == [t[0]] + t[1..];
      InsertKeepsOthers(y, t[1..], le, q);
      FilterCons(t[0], Insert(y, t[1..], le), q);
      FilterCons(t[0], t[1..], q);
    }
  }

  lemma {:induction false} InsertEquivalent<T(!new)>(x: T, y: T, t: seq<T>, le: (T, T) -> bool)
    requires TotalPreorder(le)
    requires EquivalentTo(le, x)(y)
    ensures Filter(Insert(y, t, le), EquivalentTo(le, x)) == [y] + Filter(t, EquivalentTo(le, x))
  {
    var q := EquivalentTo(le, x);
    if |t| == 0 {
      FilterCons(y, [], q);
    } else if le(y, t[0]) {
      FilterCons(y, t, q);
    } else {
      assert t == [t[0]] + t[1..];
      assert !q(t[0]);
      InsertEquivalent(x, y, t[1..], le);
      FilterCons(t[0], Insert(y, t[1..], le), q);
      FilterCons(t[0], t[1..], q);
    }
  }

  /** Stability: the elements that compare equal to any given one keep their
      relative order. */
  lemma {:induction false} SortStable<T(!new)>(s: seq<T>, le: (T, T) -> bool, x: T)
    requires TotalPreorder(le)
    ensures Filter(Sort(s, le), EquivalentTo(le, x)) == Filter(s, EquivalentTo(le, x))
  {
    var q := EquivalentTo(le, x);
    if |s| > 0 {
      var head, tail := s[0], s[1..];
      var rest := Sort(tail, le);
      assert Sort(s, le) == Insert(head, rest, le);
      assert Filter(rest, q) == Filter(tail, q) by {
        SortStable(tail, le, x);
      }
      assert Filter(s, q) == if q(head) then [head] + Filter(tail, q) else Filter(tail, q) by {
        DropHead(s);
        FilterCons(head, tail, q);
      }
      assert Filter(Insert(head, rest, le), q) == if q(head) then [head] + Filter(rest, q) else Filter(rest, q) by {
        if q(head) {
          InsertEquivalent(x, head, rest, le);
        } else {
          InsertKeepsOthers(head, rest, le, q);
        }
      }
    }
  }

  /** `b` lists the elements that `le` ranks equal to any one element in the
      order in which `a` lists them. */
  ghost predicate TiesInOrderOf<T(!new)>(b: seq<T>, a: seq<T>, le: (T, T) -> bool) {
    forall x :: Filter(b, EquivalentTo(le, x)) == Filter(a, EquivalentTo(le, x))
  }

  /** The sort keeps every group of equal elements in its input order. */
  lemma {:induction false} SortKeepsTies<T(!new)>(s: seq<T>, le: (T, T) -> bool)
    requires TotalPreorder(le)
    ensures TiesInOrderOf(Sort(s, le), s, le)
  {
    forall x
      ensures Filter(Sort(s, le), EquivalentTo(le, x)) == Filter(s, EquivalentTo(le, x))
    {
      SortStable(s, le, x);
    }
  }
}
