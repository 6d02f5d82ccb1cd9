/**
  String vocabulary: the JavaScript string operations the views use. Case
  mapping, collation and date formatting depend on the browser and are kept
  abstract in `Locale`; substring search, the `<` order on strings and the
  decimal rendering of integers are defined here.
 */
module Text {

  /** The browser services the model does not define: `toLowerCase`,
      `localeCompare` and `Date.prototype.toLocaleDateString` (on an instant). */
  datatype Locale = Locale(
    lower: string -> string,
    collate: (string, string) -> int,
    formatDate: int -> string)

  /** What `localeCompare` promises: the sign flips when the arguments are
      swapped, and "not after" is transitive. */
  ghost predicate IsCollation(collate: (string, string) -> int) {
    && (forall s, t :: collate(s, t) < 0 <==> collate(t, s) > 0)
    && (forall s, t, u :: collate(s, t) <= 0 && collate(t, u) <= 0 ==> collate(s, u) <= 0)
  }

  predicate IsPrefix(p: string, s: string) {
    |p| <= |s| && s[..|p|] == p
  }

  /** `s.includes(sub)`. */
  predicate Includes(s: string, sub: string)
    decreases |s|
  {
    IsPrefix(sub, s) || (|s| > 0 && Includes(s[1..], sub))
  }

  /** `sub` occurs in `s` starting at position i. */
  predicate OccursAt(s: string, sub: string, i: int) {
    0 <= i <= |s| - |sub| && s[i..i + |sub|] == sub
  }

  /** `includes` holds exactly when `sub` occurs at some position of `s`. */
  lemma {:induction false} IncludesIffOccurs(s: string, sub: string)
    ensures Includes(s, sub) <==> exists i :: OccursAt(s, sub, i)
    decreases |s|
  {
    if IsPrefix(sub, s) {
      assert OccursAt(s, sub, 0);
    } else if |s| == 0 {
    } else {
      IncludesIffOccurs(s[1..], sub);
      if Includes(s[1..], sub) {
        var j :| OccursAt(s[1..], sub, j);
        assert s[j + 1..j + 1 + |sub|] == s[1..][j..j + |sub|];
        assert OccursAt(s, sub, j + 1);
      }
      if i :| OccursAt(s, sub, i) {
        assert i != 0;
        assert s[1..][i - 1..i - 1 + |sub|] == s[i..i + |sub|];
        assert OccursAt(s[1..], sub, i - 1);
      }
    }
  }

  /** JavaScript's `<` on strings, as lexicographic order of characters. A
      Dafny character is a Unicode scalar value, so this agrees with the
      UTF-16 code-unit order JavaScript uses only while both strings stay in
      the Basic Multilingual Plane. */
  predicate LexLess(a: string, b: string)
    decreases |a|
  {
    if |a| == 0 then |b| > 0
    else if |b| == 0 then false
    else if a[0] != b[0] then a[0] < b[0]
    else LexLess(a[1..], b[1..])
  }

  lemma {:induction false} LexLessIrreflexive(a: string)
    ensures !LexLess(a, a)
    decreases |a|
  {
    if |a| > 0 {
      LexLessIrreflexive(a[1..]);
    }
  }

  lemma {:induction false} LexLessAsymmetric(a: string, b: string)
    requires LexLess(a, b)
    ensures !LexLess(b, a)
    decreases |a|
  {
    if |a| > 0 && |b| > 0 && a[0] == b[0] {
      LexLessAsymmetric(a[1..], b[1..]);
    }
  }

  lemma {:induction false} LexLessTransitive(a: string, b: string, c: string)
    requires LexLess(a, b) && LexLess(b, c)
    ensures LexLess(a, c)
    decreases |a|
  {
    if |a| > 0 && a[0] == b[0] && b[0] == c[0] {
      LexLessTransitive(a[1..], b[1..], c[1..]);
    }
  }

  /** Two different strings are always ordered one way or the other. */
  lemma {:induction false} LexLessTotal(a: string, b: string)
    ensures a == b || LexLess(a, b) || LexLess(b, a)
    decreases |a|
  {
    if |a| > 0 && |b| > 0 && a[0] == b[0] {
      LexLessTotal(a[1..], b[1..]);
      if a[1..] == b[1..] {
        assert a == [a[0]] + a[1..] && b == [b[0]] + b[1..];
      }
    }
  }

  function DigitChar(d: nat): (c: char)
    requires d < 10
    ensures '0' <= c <= '9'
  {
    "0123456789"[d]
  }

  function DigitValue(c: char): nat {
    if '0' <= c <= '9' then (c as int - '0' as int) as nat else 0
  }

  /** Decimal digits of a non-negative integer, as `String(n)` renders it. */
  function NatToString(n: nat): (r: string)
    ensures |r| >= 1
    ensures |r| == 1 <==> n < 10
    ensures forall i :: 0 <= i < |r| ==> '0' <= r[i] <= '9'
    decreases n
  {
    if n < 10 then [DigitChar(n)] else NatToString(n / 10) + [DigitChar(n % 10)]
  }

  /** `String(i)` (and `${i}`) for an integer value. */
  function IntToString(i: int): string {
    if i < 0 then "-" + NatToString(-i) else NatToString(i)
  }

  /** Reads a run of decimal digits back into a number. */
  function ParseDigits(s: string): nat
    decreases |s|
  {
    if |s| == 0 then 0 else 10 * ParseDigits(s[..|s| - 1]) + DigitValue(s[|s| - 1])
  }

  lemma {:induction false} DigitRoundTrip(d: nat)
    requires d < 10
    ensures DigitValue(DigitChar(d)) == d
  {
    assert "0123456789"[d] as int == '0' as int + d;
  }

  lemma {:induction false} ParseDigitsOfNatToString(n: nat)
    ensures ParseDigits(NatToString(n)) == n
    decreases n
  {
    var r := NatToString(n);
    if n < 10 {
      assert r[..0] == [];
      DigitRoundTrip(n);
    } else {
      var q, d := n / 10, n % 10;
      assert n == 10 * q + d;
      var init := NatToString(q);
      assert r == init + [DigitChar(d)];
      assert r[..|r| - 1] == init && r[|r| - 1] == DigitChar(d);
      ParseDigitsOfNatToString(q);
      DigitRoundTrip(d);
    }
  }

  /** The single-character rendering `"d"` belongs to the digit d alone. */
  lemma {:induction false} IntToStringSingleDigit(i: int, d: nat)
    requires d < 10
    ensures IntToString(i) == [DigitChar(d)] <==> i == d
  {
    if i < 0 {
      assert IntToString(i)[0] == '-';
    } else if IntToString(i) == [DigitChar(d)] {
      assert i < 10;
    }
  }
}
