/** Text primitives the handlers and stores rely on: Go's `strings.TrimSpace`
    (through `unicode.IsSpace`) and the byte-wise string order that both Go's
    `<=` on strings and SQLite's default BINARY collation use. On UTF-8 text
    byte order coincides with code-point order, so it is stated on characters. */
module Text {

  /** `unicode.IsSpace`: the Latin-1 spaces plus Unicode's White_Space property. */
  predicate IsSpace(c: char) {
    || c == '\t' || c == '\n' || c == '\U{000B}' || c == '\U{000C}' || c == '\r' || c == ' '
    || c == '\U{0085}' || c == '\U{00A0}' || c == '\U{1680}'
    || ('\U{2000}' <= c <= '\U{200A}')
    || c == '\U{2028}' || c == '\U{2029}' || c == '\U{202F}' || c == '\U{205F}' || c == '\U{3000}'
  }

  /** Every character of `s` is white space (the empty string included). */
  predicate IsBlank(s: string) {
    forall i :: 0 <= i < |s| ==> IsSpace(s[i])
  }

  /** Drops the leading white space: the result is the suffix of `s` that starts
      at its first non-space character. */
  function TrimLeft(s: string): (r: string)
    ensures |r| <= |s| && r == s[|s| - |r|..]
    ensures forall i :: 0 <= i < |s| - |r| ==> IsSpace(s[i])
    ensures r == [] || !IsSpace(r[0])
  {
    if s != [] && IsSpace(s[0]) then TrimLeft(s[1..]) else s
  }

  /** Drops the trailing white space: the result is the prefix of `s` that ends
      at its last non-space character. */
  function TrimRight(s: string): (r: string)
    ensures |r| <= |s| && r == s[..|r|]
    ensures forall i :: |r| <= i < |s| ==> IsSpace(s[i])
    ensures r == [] || !IsSpace(r[|r| - 1])
  {
    if s != [] && IsSpace(s[|s| - 1]) then TrimRight(s[..|s| - 1]) else s
  }

  /** `r` is `s` with `k` characters of white space cut from its front and
      only white space cut from its back. */
  predicate StripsTo(s: string, r: string, k: int) {
    && 0 <= k <= |s| - |r|
    && r == s[k..k + |r|]
    && (forall i :: 0 <= i < k ==> IsSpace(s[i]))
    && (forall i :: k + |r| <= i < |s| ==> IsSpace(s[i]))
  }

  /** `strings.TrimSpace`. It yields "" exactly for blank input, which is how
      the request validators use it. */
  function TrimSpace(s: string): (r: string)
    ensures r == [] <==> IsBlank(s)
    ensures r != [] ==> !IsSpace(r[0]) && !IsSpace(r[|r| - 1])
    ensures exists k :: StripsTo(s, r, k)
  {
    var t := TrimLeft(s);
    var r := TrimRight(t);
    assert StripsTo(s, r, |s| - |t|);
    assert t != [] ==> !IsSpace(t[0]);
    r
  }

  /** Lexicographic order on strings: `a <= b` in Go, and SQLite's BINARY collation. */
  predicate LessEq(a: string, b: string) {
    if a == [] then true
    else if b == [] then false
    else if a[0] != b[0] then a[0] < b[0]
    else LessEq(a[1..], b[1..])
  }

  lemma {:induction false} LessEqReflexive(a: string)
    ensures LessEq(a, a)
  {
    if a != [] {
      LessEqReflexive(a[1..]);
    }
  }

  lemma {:induction false} LessEqTotal(a: string, b: string)
    ensures LessEq(a, b) || LessEq(b, a)
  {
    if a != [] && b != [] && a[0] == b[0] {
      LessEqTotal(a[1..], b[1..]);
    }
  }

  lemma {:induction false} LessEqAntisymmetric(a: string, b: string)
    requires LessEq(a, b) && LessEq(b, a)
    ensures a == b
  {
    if a != [] && b != [] {
      LessEqAntisymmetric(a[1..], b[1..]);
      assert a == [a[0]] + a[1..] && b == [b[0]] + b[1..];
    }
  }

  lemma {:induction false} LessEqTransitive(a: string, b: string, c: string)
    requires LessEq(a, b) && LessEq(b, c)
    ensures LessEq(a, c)
  {
    if a != [] && b != [] && c != [] && a[0] == b[0] == c[0] {
      LessEqTransitive(a[1..], b[1..], c[1..]);
    }
  }

  /** Comparing two strings that start with equal-width fields: the fields
      decide unless they are equal, in which case the tails do. */
  lemma {:induction false} LessEqConcat(a: string, b: string, s: string, t: string)
    requires |a| == |b|
    ensures a == b ==> (LessEq(a + s, b + t) <==> LessEq(s, t))
    ensures a != b ==> (LessEq(a + s, b + t) <==> LessEq(a, b))
  {
    if a != [] {
      assert (a + s)[0] == a[0] && (b + t)[0] == b[0];
      assert (a + s)[1..] == a[1..] + s && (b + t)[1..] == b[1..] + t;
      LessEqConcat(a[1..], b[1..], s, t);
      if a[0] == b[0] && a[1..] == b[1..] {
        assert a == [a[0]] + a[1..] && b == [b[0]] + b[1..];
      }
    } else {
      assert a + s == s && b + t == t;
    }
  }
}
