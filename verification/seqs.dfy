/**
  Sequence vocabulary shared by both list views: the JavaScript array
  operations the controllers call (`filter`, `reduce`, `slice`, the page loop)
  as pure functions on `seq`, with the facts about them the views rely on.
 */
module Seqs {

  datatype Option<T> = None | Some(value: T)

  /** What a fetch delivers to a view: the payload of a successful envelope,
      or the failure the API client raised. */
  datatype Response<T> = Received(data: T) | Failed(message: string)

  /** `Math.min` of two numbers: the smaller one. */
  function Min(a: int, b: int): (r: int)
    ensures r <= a && r <= b && (r == a || r == b)
  {
    if a <= b then a else b
  }

  /** `Math.max` of two numbers: the larger one. */
  function Max(a: int, b: int): (r: int)
    ensures r >= a && r >= b && (r == a || r == b)
  {
    if a >= b then a else b
  }

  /** `Math.ceil(a / n)` for a non-negative count and a positive page size:
      the least r with r * n >= a. */
  function CeilDiv(a: nat, n: nat): (r: nat)
    requires n > 0
    ensures r * n >= a
    ensures r > 0 ==> (r - 1) * n < a
    ensures r == 0 <==> a == 0
  {
    var q := (a + n - 1) / n;
    assert a + n - 1 == q * n + (a + n - 1) % n;
    q
  }

  /** `a` can be obtained from `b` by deleting elements (order is kept). */
  predicate Subsequence<T(==)>(a: seq<T>, b: seq<T>)
    decreases |b|
  {
    |a| == 0 ||
    (|b| > 0 && ((a[0] == b[0] && Subsequence(a[1..], b[1..])) || Subsequence(a, b[1..])))
  }

  /** Number of elements of `s` that satisfy `p`. */
  function Count<T>(s: seq<T>, p: T -> bool): (n: nat)
    ensures n <= |s|
  {
    if |s| == 0 then 0 else (if p(s[0]) then 1 else 0) + Count(s[1..], p)
  }

  /** `Array.prototype.filter`: the elements of `s` that satisfy `p`, in order,
      each with its multiplicity in `s`. */
  function Filter<T(==,!new)>(s: seq<T>, p: T -> bool): (r: seq<T>)
    ensures Subsequence(r, s)
    ensures |r| == Count(s, p)
    ensures forall x :: multiset(r)[x] == (if p(x) then multiset(s)[x] else 0)
    ensures forall x :: x in r <==> x in s && p(x)
  {
    if |s| == 0 then []
    else
      var rest := Filter(s[1..], p);
      assert s == [s[0]] + s[1..];
      if p(s[0]) then [s[0]] + rest else rest
  }

  /** A filter that every element passes returns the sequence unchanged. */
  lemma {:induction false} FilterAll<T(!new)>(s: seq<T>, p: T -> bool)
    requires forall i :: 0 <= i < |s| ==> p(s[i])
    ensures Filter(s, p) == s
  {
    if |s| > 0 {
      FilterAll(s[1..], p);
      assert s == [s[0]] + s[1..];
    }
  }

  /** `reduce((sum, x) => sum + f(x), 0)`. */
  function SumOf<T>(s: seq<T>, f: T -> int): int
  {
    if |s| == 0 then 0 else f(s[0]) + SumOf(s[1..], f)
  }

  lemma {:induction false} SumOfAppend<T>(a: seq<T>, b: seq<T>, f: T -> int)
    ensures SumOf(a + b, f) == SumOf(a, f) + SumOf(b, f)
  {
    if |a| == 0 {
      assert a + b == b;
    } else {
      assert (a + b)[1..] == a[1..] + b;
      SumOfAppend(a[1..], b, f);
    }
  }

  /** With non-negative terms, a sum over some of the elements is at most the
      sum over all of them. */
  lemma {:induction false} SumOfFilterBounded<T(!new)>(s: seq<T>, p: T -> bool, f: T -> int)
    requires forall x :: x in s ==> f(x) >= 0
    ensures 0 <= SumOf(Filter(s, p), f) <= SumOf(s, f)
  {
    if |s| > 0 {
      SumOfFilterBounded(s[1..], p, f);
      assert s[0] in s;
      if p(s[0]) {
        assert Filter(s, p) == [s[0]] + Filter(s[1..], p);
        assert ([s[0]] + Filter(s[1..], p))[1..] == Filter(s[1..], p);
      }
    }
  }

  /** Elements satisfying two exclusive tests are together at most all of them. */
  lemma {:induction false} CountExclusive<T>(s: seq<T>, p: T -> bool, q: T -> bool)
    requires forall x :: !(p(x) && q(x))
    ensures Count(s, p) + Count(s, q) <= |s|
  {
    if |s| > 0 {
      CountExclusive(s[1..], p, q);
    }
  }

  /** A non-empty sequence is its head followed by its tail. */
  lemma {:induction false} DropHead<T>(s: seq<T>)
    requires |s| > 0
    ensures s == [s[0]] + s[1..]
    ensures multiset(s[1..]) == multiset(s) - multiset{s[0]}
  {
    assert s == [s[0]] + s[1..];
    assert multiset(s) == multiset{s[0]} + multiset(s[1..]);
  }

  /** A sum over a sequence depends only on its multiset of elements. */
  lemma {:induction false} SumOfPermutation<T>(a: seq<T>, b: seq<T>, f: T -> int)
    requires multiset(a) == multiset(b)
    ensures SumOf(a, f) == SumOf(b, f)
  {
    if |a| == 0 {
      assert |b| == |multiset(b)| == 0;
    } else {
      assert a[0] in multiset(b);
      var k :| 0 <= k < |b| && b[k] == a[0];
      var rest := b[..k] + b[k + 1..];
      assert b == b[..k] + [b[k]] + b[k + 1..];
      assert a == [a[0]] + a[1..];
      assert multiset(b) == multiset(b[..k]) + multiset{b[k]} + multiset(b[k + 1..]);
      assert multiset(rest) == multiset(b[..k]) + multiset(b[k + 1..]);
      assert multiset(a) == multiset{a[0]} + multiset(a[1..]);
      assert multiset(a[1..]) == multiset(a) - multiset{a[0]};
      assert multiset(rest) == multiset(b) - multiset{b[k]};
      SumOfPermutation(a[1..], rest, f);
      SumOfAppend(b[..k] + [b[k]], b[k + 1..], f);
      SumOfAppend(b[..k], [b[k]], f);
      SumOfAppend(b[..k], b[k + 1..], f);
    }
  }

  /** Filtering two arrangements of the same elements keeps the same elements. */
  lemma {:induction false} FilterPermutation<T(!new)>(a: seq<T>, b: seq<T>, p: T -> bool)
    requires multiset(a) == multiset(b)
    ensures multiset(Filter(a, p)) == multiset(Filter(b, p))
  {
    assert forall x :: multiset(Filter(a, p))[x] == multiset(Filter(b, p))[x];
  }

  /** `Array.prototype.slice(start, end)`: negative positions count from the
      end, and both positions are clamped into [0, |s|]. */
  function JsSlice<T>(s: seq<T>, start: int, end: int): (r: seq<T>)
    ensures 0 <= start && 0 <= end ==> |r| <= Max(0, end - start)
    ensures 0 <= start <= end ==> r == s[Min(start, |s|)..Min(end, |s|)]
  {
    var n := |s|;
    var from := if start < 0 then Max(n + start, 0) else Min(start, n);
    var to := if end < 0 then Max(n + end, 0) else Min(end, n);
    if from < to then s[from..to] else []
  }

  /** The integers lo, lo + 1, ..., hi (empty when hi < lo), as pushed by the
      page-window loops `for (let i = lo; i <= hi; i++)`. */
  function Range(lo: int, hi: int): (r: seq<int>)
    decreases hi - lo
    ensures |r| == if hi < lo then 0 else hi - lo + 1
    ensures forall i :: 0 <= i < |r| ==> r[i] == lo + i
  {
    if hi < lo then [] else [lo] + Range(lo + 1, hi)
  }

  function Reverse<T>(s: seq<T>): (r: seq<T>)
    ensures |r| == |s|
    ensures forall i :: 0 <= i < |s| ==> r[i] == s[|s| - 1 - i]
  {
    if |s| == 0 then [] else Reverse(s[1..]) + [s[0]]
  }

  lemma {:induction false} ReversePermutation<T>(s: seq<T>)
    ensures multiset(Reverse(s)) == multiset(s)
  {
    if |s| > 0 {
      ReversePermutation(s[1..]);
      assert s == [s[0]] + s[1..];
    }
  }
}
