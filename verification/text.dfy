/** String helpers with the meaning of the Python string methods the system
    uses: `sep.join(xs)`, `s.upper()` (ASCII letters only), `sub in s`,
    `s.strip(chars)`, `s.replace(a, b)` for single characters, `s.rfind(c)`
    and `str(n)` for integers. */
module Text {

  /** `sep.join(xs)`. */
  function Join(sep: string, xs: seq<string>): (r: string)
    ensures xs == [] ==> r == ""
    ensures |xs| == 1 ==> r == xs[0]
  {
    if xs == [] then ""
    else if |xs| == 1 then xs[0]
    else xs[0] + sep + Join(sep, xs[1..])
  }

  /** Appending one more part to a non-empty join adds exactly the
      separator and that part at the end. */
  lemma {:induction false} JoinSnoc(sep: string, xs: seq<string>, y: string)
    requires xs != []
    ensures Join(sep, xs + [y]) == Join(sep, xs) + sep + y
  {
    if |xs| == 1 {
      assert xs + [y] == [xs[0], y];
      assert ([xs[0], y])[1..] == [y];
    } else {
      assert (xs + [y])[0] == xs[0];
      assert (xs + [y])[1..] == xs[1..] + [y];
      JoinSnoc(sep, xs[1..], y);
    }
  }

  /** `p` is a prefix of `s`. */
  predicate IsPrefix<T(==)>(p: seq<T>, s: seq<T>) {
    |p| <= |s| && s[..|p|] == p
  }

  lemma PrefixOfConcat<T>(a: seq<T>, b: seq<T>)
    ensures IsPrefix(a, a + b)
  {
  }

  lemma PrefixTrans<T>(a: seq<T>, b: seq<T>, c: seq<T>)
    requires IsPrefix(a, b) && IsPrefix(b, c)
    ensures IsPrefix(a, c)
  {
    assert c[..|a|] == c[..|b|][..|a|];
  }

  lemma ConcatAssoc<T>(a: seq<T>, b: seq<T>, c: seq<T>)
    ensures a + (b + c) == (a + b) + c
  {
  }

  /** Python's `str.upper()` restricted to ASCII: `a`..`z` become `A`..`Z`,
      every other character is kept. */
  function UpperChar(c: char): char {
    if 'a' <= c <= 'z' then (c as int - 32) as char else c
  }

  function Upper(s: string): (r: string)
    ensures |r| == |s|
    ensures forall i :: 0 <= i < |s| ==> r[i] == UpperChar(s[i])
  {
    seq(|s|, i requires 0 <= i < |s| => UpperChar(s[i]))
  }

  lemma UpperConcat(a: string, b: string)
    ensures Upper(a + b) == Upper(a) + Upper(b)
  {
  }

  /** Upper-casing leaves a string without lower-case ASCII letters alone. */
  lemma UpperNoLower(s: string)
    requires NoLower(s)
    ensures Upper(s) == s
  {
  }

  /** `p` occurs in `s` starting at position `i`. */
  predicate OccursAt(s: string, p: string, i: int) {
    0 <= i && i + |p| <= |s| && s[i..i + |p|] == p
  }

  /** `p` has no lower-case ASCII letter. */
  predicate NoLower(p: string) {
    forall i :: 0 <= i < |p| ==> !('a' <= p[i] <= 'z')
  }

  /** `p in s`, decided by scanning from the left. */
  function Contains(s: string, p: string): (r: bool)
    ensures r <==> exists i :: OccursAt(s, p, i)
    decreases |s|
  {
    if |p| > |s| then
      assert forall i :: !OccursAt(s, p, i);
      false
    else if s[..|p|] == p then
      assert OccursAt(s, p, 0);
      true
    else
      var rest := Contains(s[1..], p);
      assert forall i :: OccursAt(s[1..], p, i) <==> OccursAt(s, p, i + 1) by {
        forall i ensures OccursAt(s[1..], p, i) <==> OccursAt(s, p, i + 1) {
          if 0 <= i && i + |p| <= |s| - 1 {
            SliceOfTail(s, i, i + |p|);
          }
        }
      }
      assert !OccursAt(s, p, 0);
      assert forall i :: OccursAt(s, p, i) ==> i >= 1 && OccursAt(s[1..], p, i - 1);
      rest
  }

  /** A slice of `s[1..]` is the slice of `s` one position further on. */
  lemma SliceOfTail<T>(s: seq<T>, i: nat, j: nat)
    requires i <= j <= |s| - 1
    ensures s[1..][i..j] == s[i + 1..j + 1]
  {
  }

  /** An occurrence of `p` inside the middle part of `a + p + b` is found. */
  lemma ContainsMiddle(a: string, p: string, b: string)
    ensures Contains(a + p + b, p)
  {
    assert (a + p + b)[|a|..|a| + |p|] == p;
    assert OccursAt(a + p + b, p, |a|);
  }

  /** An occurrence of an upper-case word survives upper-casing: a text
      that holds `p` still holds it once upper-cased. */
  lemma ContainsUpper(s: string, p: string)
    requires NoLower(p)
    ensures Contains(s, p) ==> Contains(Upper(s), p)
  {
    if Contains(s, p) {
      var i :| OccursAt(s, p, i);
      assert Upper(s)[i..i + |p|] == Upper(s[i..i + |p|]);
      UpperNoLower(p);
      assert OccursAt(Upper(s), p, i);
    }
  }

  /** Every character of `s[i..j]` belongs to `cs`. */
  predicate AllIn(s: string, cs: set<char>) {
    forall k :: 0 <= k < |s| ==> s[k] in cs
  }

  /** `s.lstrip(chars)`. */
  function StripLeft(s: string, cs: set<char>): (r: string)
    ensures |r| <= |s| && r == s[|s| - |r|..]
    ensures AllIn(s[..|s| - |r|], cs)
    ensures r == [] || r[0] !in cs
  {
    if s == [] || s[0] !in cs then s
    else
      var r := StripLeft(s[1..], cs);
      var n := |s| - |r|;
      SplitAfterFirst(s, n);
      assert AllIn(s[..n], cs) by {
        forall k | 0 <= k < n ensures s[..n][k] in cs {
          if k > 0 {
            assert s[..n][k] == s[1..][..n - 1][k - 1];
          }
        }
      }
      r
  }

  /** Cutting `s` at `n` after setting its first element aside. */
  lemma SplitAfterFirst<T>(s: seq<T>, n: nat)
    requires 1 <= n <= |s|
    ensures s[n..] == s[1..][n - 1..]
    ensures s[..n] == [s[0]] + s[1..][..n - 1]
  {
  }

  /** `s.rstrip(chars)`. */
  function StripRight(s: string, cs: set<char>): (r: string)
    ensures |r| <= |s| && r == s[..|r|]
    ensures AllIn(s[|r|..], cs)
    ensures r == [] || r[|r| - 1] !in cs
  {
    if s == [] || s[|s| - 1] !in cs then s
    else
      var r := StripRight(s[..|s| - 1], cs);
      assert s[|r|..] == s[..|s| - 1][|r|..] + [s[|s| - 1]];
      r
  }

  /** `s.strip(chars)`: the middle part of `s` left once every leading and
      trailing character drawn from `cs` is removed. */
  function Strip(s: string, cs: set<char>): (r: string)
    ensures exists i, j :: 0 <= i <= j <= |s| && r == s[i..j] && AllIn(s[..i], cs) && AllIn(s[j..], cs)
    ensures r == [] || (r[0] !in cs && r[|r| - 1] !in cs)
  {
    var l := StripLeft(s, cs);
    var r := StripRight(l, cs);
    var i := |s| - |l|;
    assert r == s[i..i + |r|];
    assert s[i + |r|..] == l[|r|..];
    r
  }

  /** Stripping leaves a string alone when neither end is in `cs`. */
  lemma StripUnchanged(s: string, cs: set<char>)
    requires s == [] || (s[0] !in cs && s[|s| - 1] !in cs)
    ensures Strip(s, cs) == s
  {
    assert StripLeft(s, cs) == s;
  }

  /** `s.replace(a, b)` for single characters `a` and `b`. */
  function ReplaceChar(s: string, a: char, b: char): (r: string)
    ensures |r| == |s|
    ensures forall i :: 0 <= i < |s| ==> r[i] == (if s[i] == a then b else s[i])
  {
    seq(|s|, i requires 0 <= i < |s| => if s[i] == a then b else s[i])
  }

  /** `s.rfind(c)`: the last position holding `c`, or -1. */
  function RFind(s: string, c: char): (r: int)
    ensures -1 <= r < |s|
    ensures r >= 0 ==> s[r] == c
    ensures forall k :: r < k < |s| ==> s[k] != c
  {
    if s == [] then -1
    else if s[|s| - 1] == c then |s| - 1
    else RFind(s[..|s| - 1], c)
  }

  /** `s.find(c)`: the first position holding `c`, or -1. */
  function Find(s: string, c: char): (r: int)
    ensures -1 <= r < |s|
    ensures r >= 0 ==> s[r] == c
    ensures forall k :: 0 <= k < |s| && (r == -1 || k < r) ==> s[k] != c
  {
    if s == [] then -1
    else if s[0] == c then 0
    else
      var r := Find(s[1..], c);
      if r == -1 then -1 else r + 1
  }

  function DigitChar(d: nat): (c: char)
    requires d < 10
    ensures '0' <= c <= '9'
  {
    ('0' as int + d) as char
  }

  predicate IsDigit(c: char) {
    '0' <= c <= '9'
  }

  /** `str(n)` for a non-negative integer: decimal, no leading zero. */
  function NatToString(n: nat): (r: string)
    ensures |r| >= 1
    ensures forall k :: 0 <= k < |r| ==> IsDigit(r[k])
    ensures |r| > 1 ==> r[0] != '0'
    decreases n
  {
    if n < 10 then [DigitChar(n)]
    else NatToString(n / 10) + [DigitChar(n % 10)]
  }

  /** `str(i)` for any integer: a minus sign before the digits of `-i`. */
  function IntToString(i: int): (r: string)
    ensures |r| >= 1
    ensures i >= 0 ==> r == NatToString(i)
    ensures i < 0 ==> r == "-" + NatToString(-i)
  {
    if i < 0 then "-" + NatToString(-i) else NatToString(i)
  }

  /** Reading the decimal digits back gives the number: `str` is injective
      on non-negative integers. */
  function DigitsValue(s: string): int
  {
    if s == [] then 0
    else DigitsValue(s[..|s| - 1]) * 10 + (s[|s| - 1] as int - '0' as int)
  }

  lemma {:induction false} NatToStringRoundTrip(n: nat)
    ensures DigitsValue(NatToString(n)) == n
    decreases n
  {
    if n >= 10 {
      var s := NatToString(n);
      assert s[..|s| - 1] == NatToString(n / 10);
      NatToStringRoundTrip(n / 10);
    }
  }

  lemma SamePrefixCancels<T>(p: seq<T>, x: seq<T>, y: seq<T>)
    requires p + x == p + y
    ensures x == y
  {
    assert x == (p + x)[|p|..];
  }

  /** `str` is injective on integers: equal texts come from equal
      numbers. */
  lemma IntToStringInjective(a: int, b: int)
    requires IntToString(a) == IntToString(b)
    ensures a == b
  {
    if a >= 0 && b >= 0 {
      NatToStringRoundTrip(a);
      NatToStringRoundTrip(b);
    } else if a < 0 && b < 0 {
      SamePrefixCancels("-", NatToString(-a), NatToString(-b));
      NatToStringRoundTrip(-a);
      NatToStringRoundTrip(-b);
    }
  }

  /** `xs` has no repeated element. */
  predicate NoDuplicates<T(==)>(xs: seq<T>) {
    forall i, j :: 0 <= i < j < |xs| ==> xs[i] != xs[j]
  }

  /** The distinct elements of `xs`, each at its first occurrence. */
  function Distinct<T(==,!new)>(xs: seq<T>): (r: seq<T>)
    ensures NoDuplicates(r)
    ensures forall x :: x in r <==> x in xs
    decreases |xs|
  {
    if xs == [] then []
    else
      var init := Distinct(xs[..|xs| - 1]);
      var last := xs[|xs| - 1];
      assert xs == xs[..|xs| - 1] + [last];
      if last in init then init else init + [last]
  }
}
