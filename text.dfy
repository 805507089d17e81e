/** The JavaScript string operations the core relies on: `trim`, `toLowerCase`/`toUpperCase`
    (ASCII letters), `includes`, `split` on a one-character separator, `join`, and the
    decimal rendering of integers used by template literals. */
module Text {

  /** ECMAScript WhiteSpace and LineTerminator code points: exactly what `String.prototype.trim`
      strips and what the regular-expression class `\s` matches. */
  predicate IsSpace(c: char) {
    c == '\t' || c == '\n' || c == '\U{B}' || c == '\U{C}' || c == '\r' || c == ' '
    || c == '\U{A0}' || c == '\U{1680}' || ('\U{2000}' <= c <= '\U{200A}')
    || c == '\U{2028}' || c == '\U{2029}' || c == '\U{202F}' || c == '\U{205F}'
    || c == '\U{3000}' || c == '\U{FEFF}'
  }

  predicate AllSpace(s: string) {
    forall i :: 0 <= i < |s| ==> IsSpace(s[i])
  }

  /** `s.trimStart()`: a suffix of `s` that starts with a non-space, everything before it being space. */
  function TrimStart(s: string): (r: string)
    ensures |r| <= |s| && r == s[|s| - |r|..]
    ensures r == [] || !IsSpace(r[0])
    ensures AllSpace(s[..|s| - |r|])
  {
    if s != [] && IsSpace(s[0]) then TrimStart(s[1..]) else s
  }

  /** `s.trimEnd()`: a prefix of `s` that ends with a non-space, everything after it being space. */
  function TrimEnd(s: string): (r: string)
    ensures |r| <= |s| && r == s[..|r|]
    ensures r == [] || !IsSpace(r[|r| - 1])
    ensures AllSpace(s[|r|..])
  {
    if s != [] && IsSpace(s[|s| - 1]) then TrimEnd(s[..|s| - 1]) else s
  }

  /** `s.trim()`. */
  function Trim(s: string): (r: string)
    ensures |r| <= |s|
    ensures r == [] || (!IsSpace(r[0]) && !IsSpace(r[|r| - 1]))
  {
    TrimEnd(TrimStart(s))
  }

  /** Where `Trim(s)` starts inside `s`: `Trim(s) == s[TrimOffset(s)..TrimOffset(s) + |Trim(s)|]`. */
  function TrimOffset(s: string): (k: nat)
    ensures k + |Trim(s)| <= |s| && Trim(s) == s[k..k + |Trim(s)|]
  {
    |s| - |TrimStart(s)|
  }

  lemma TrimEmptyIffAllSpace(s: string)
    ensures Trim(s) == [] <==> AllSpace(s)
  {
    if Trim(s) == [] {
      TrimEmptyAllSpace(s);
    } else {
      TrimNonEmpty(s);
    }
  }

  lemma TrimEmptyAllSpace(s: string)
    requires Trim(s) == []
    ensures AllSpace(s)
  {
    var t := TrimStart(s);
    var n := |s| - |t|;
    assert AllSpace(s[..n]);
    assert TrimEnd(t) == [];
    assert AllSpace(t[0..]);
    forall i | 0 <= i < |s| ensures IsSpace(s[i]) {
      if i < n {
        assert s[i] == s[..n][i];
      } else {
        assert s[i] == t[i - n];
        assert t[i - n] == t[0..][i - n];
      }
    }
  }

  lemma TrimNonEmpty(s: string)
    requires Trim(s) != []
    ensures !AllSpace(s)
  {
    var k := TrimOffset(s);
    assert s[k] == Trim(s)[0];
  }

  lemma TrimOfTrimmed(s: string)
    requires s == [] || (!IsSpace(s[0]) && !IsSpace(s[|s| - 1]))
    ensures Trim(s) == s
  {
  }

  // ---------------------------------------------------------------- case

  function LowerChar(c: char): char {
    if 'A' <= c <= 'Z' then (c as int + 32) as char else c
  }

  function UpperChar(c: char): char {
    if 'a' <= c <= 'z' then (c as int - 32) as char else c
  }

  /** `s.toLowerCase()` on ASCII letters; other characters are kept. */
  function ToLower(s: string): (r: string)
    ensures |r| == |s| && forall i :: 0 <= i < |s| ==> r[i] == LowerChar(s[i])
  {
    seq(|s|, i requires 0 <= i < |s| => LowerChar(s[i]))
  }

  /** `s.toUpperCase()` on ASCII letters; other characters are kept. */
  function ToUpper(s: string): (r: string)
    ensures |r| == |s| && forall i :: 0 <= i < |s| ==> r[i] == UpperChar(s[i])
  {
    seq(|s|, i requires 0 <= i < |s| => UpperChar(s[i]))
  }

  lemma LowerOfUpper(s: string)
    ensures ToLower(ToUpper(s)) == ToLower(s)
  {
  }

  lemma LowerOfSlice(s: string, i: nat, j: nat)
    requires i <= j <= |s|
    ensures ToLower(s[i..j]) == ToLower(s)[i..j]
  {
  }

  // ---------------------------------------------------------------- substrings

  /** `t` occurs in `s` starting at index `i`. */
  predicate HasAt(s: string, t: string, i: int) {
    0 <= i && i + |t| <= |s| && s[i..i + |t|] == t
  }

  /** `s.includes(t)`. */
  predicate Contains(s: string, t: string) {
    exists i | 0 <= i <= |s| :: HasAt(s, t, i)
  }

  lemma ContainsEmpty(s: string)
    ensures Contains(s, "")
  {
    assert HasAt(s, "", 0);
  }

  lemma ContainsSelf(s: string)
    ensures Contains(s, s)
  {
    assert HasAt(s, s, 0);
  }

  lemma {:induction false} ContainsTransitive(a: string, b: string, c: string)
    requires Contains(a, b) && Contains(b, c)
    ensures Contains(a, c)
  {
    var i :| 0 <= i <= |a| && HasAt(a, b, i);
    var j :| 0 <= j <= |b| && HasAt(b, c, j);
    assert b == a[i..i + |b|];
    assert forall k :: 0 <= k < |c| ==> a[i + j + k] == b[j + k] == c[k];
    assert a[i + j..i + j + |c|] == c;
    assert HasAt(a, c, i + j);
  }

  lemma {:induction false} LowerKeepsContains(s: string, t: string)
    requires Contains(s, t)
    ensures Contains(ToLower(s), ToLower(t))
  {
    var i :| 0 <= i <= |s| && HasAt(s, t, i);
    LowerOfSlice(s, i, i + |t|);
    assert HasAt(ToLower(s), ToLower(t), i);
  }

  /** The first index `r >= from` at which `pat` occurs in `s`, or -1 (`s.indexOf(pat, from)`). */
  function FindFrom(s: string, pat: string, from: nat): (r: int)
    ensures r == -1 || (from <= r && HasAt(s, pat, r))
    ensures r == -1 ==> forall i :: from <= i ==> !HasAt(s, pat, i)
    ensures r >= 0 ==> forall i :: from <= i < r ==> !HasAt(s, pat, i)
    decreases |s| - from
  {
    if HasAt(s, pat, from) then from
    else if from >= |s| then -1
    else FindFrom(s, pat, from + 1)
  }

  // ---------------------------------------------------------------- split and join

  /** `c` does not occur in `s`. */
  predicate Free(s: string, c: char) {
    forall j :: 0 <= j < |s| ==> s[j] != c
  }

  /** `s.indexOf(c)`: the first index holding `c`, or -1. */
  function IndexOf(s: string, c: char): (r: int)
    ensures -1 <= r < |s|
    ensures r == -1 <==> Free(s, c)
    ensures r >= 0 ==> s[r] == c && Free(s[..r], c)
  {
    if s == [] then -1
    else if s[0] == c then 0
    else
      var k := IndexOf(s[1..], c);
      if k < 0 then -1
      else
        assert s[..k + 1] == [s[0]] + s[1..][..k];
        k + 1
  }

  lemma IndexOfIs(s: string, c: char, k: nat)
    requires k < |s| && s[k] == c && Free(s[..k], c)
    ensures IndexOf(s, c) == k
  {
  }

  /** `s.split(d)` for a one-character separator `d`. */
  function Split(s: string, d: char): (parts: seq<string>)
    ensures |parts| >= 1
    decreases |s|
  {
    var i := IndexOf(s, d);
    if i < 0 then [s] else [s[..i]] + Split(s[i + 1..], d)
  }

  /** No part of a split holds the separator. */
  lemma {:induction false} SplitPartsFree(s: string, d: char)
    ensures forall k | 0 <= k < |Split(s, d)| :: Free(Split(s, d)[k], d)
    decreases |s|
  {
    var i := IndexOf(s, d);
    if i >= 0 {
      SplitPartsFree(s[i + 1..], d);
    }
  }

  /** `parts.join(sep)`. */
  function Join(parts: seq<string>, sep: string): string {
    if |parts| == 0 then ""
    else if |parts| == 1 then parts[0]
    else parts[0] + sep + Join(parts[1..], sep)
  }

  lemma JoinCons(head: string, rest: seq<string>, sep: string)
    requires rest != []
    ensures Join([head] + rest, sep) == head + sep + Join(rest, sep)
  {
    assert ([head] + rest)[1..] == rest;
  }

  lemma SplitAt(s: string, d: char)
    requires IndexOf(s, d) >= 0
    ensures Split(s, d) == [s[..IndexOf(s, d)]] + Split(s[IndexOf(s, d) + 1..], d)
  {
  }

  /** Splitting and re-joining with the same separator gives the string back. */
  lemma {:induction false} JoinSplit(s: string, d: char)
    ensures Join(Split(s, d), [d]) == s
    decreases |s|
  {
    var i := IndexOf(s, d);
    if i >= 0 {
      JoinSplit(s[i + 1..], d);
      JoinSplitStep(s, d);
    }
  }

  lemma JoinSplitStep(s: string, d: char)
    requires IndexOf(s, d) >= 0
    requires Join(Split(s[IndexOf(s, d) + 1..], d), [d]) == s[IndexOf(s, d) + 1..]
    ensures Join(Split(s, d), [d]) == s
  {
    var i := IndexOf(s, d);
    var head, tail := s[..i], s[i + 1..];
    SplitAt(s, d);
    JoinCons(head, Split(tail, d), [d]);
    SliceAround(s, i);
  }

  lemma SliceAround(s: string, i: nat)
    requires i < |s|
    ensures s == s[..i] + [s[i]] + s[i + 1..]
  {
  }

  /** Joining parts free of the separator and splitting again gives the parts back. */
  lemma {:induction false} SplitJoin(parts: seq<string>, d: char)
    requires |parts| >= 1
    requires forall k :: 0 <= k < |parts| ==> Free(parts[k], d)
    ensures Split(Join(parts, [d]), d) == parts
  {
    if |parts| == 1 {
      assert IndexOf(parts[0], d) == -1;
    } else {
      var s := Join(parts, [d]);
      var rest := Join(parts[1..], [d]);
      assert s == parts[0] + [d] + rest;
      assert s[..|parts[0]|] == parts[0];
      IndexOfIs(s, d, |parts[0]|);
      assert s[|parts[0]| + 1..] == rest;
      SplitJoin(parts[1..], d);
      assert parts == [parts[0]] + parts[1..];
    }
  }

  /** A trailing separator adds one empty last part. */
  lemma {:induction false} SplitTrailing(s: string, d: char)
    ensures Split(s + [d], d) == Split(s, d) + [""]
    decreases |s|
  {
    var i := IndexOf(s, d);
    if i < 0 {
      SplitTrailingFree(s, d);
      assert Split(s, d) == [s];
    } else {
      SplitTrailing(s[i + 1..], d);
      SplitTrailingCombine(s, d);
    }
  }

  lemma SplitTrailingFree(s: string, d: char)
    requires IndexOf(s, d) < 0
    ensures Split(s + [d], d) == [s, ""]
  {
    var t := s + [d];
    assert t[..|s|] == s;
    IndexOfIs(t, d, |s|);
    assert t[|s| + 1..] == "";
    assert Split("", d) == [""];
  }

  lemma SplitTrailingCombine(s: string, d: char)
    requires IndexOf(s, d) >= 0
    requires var tail := s[IndexOf(s, d) + 1..]; Split(tail + [d], d) == Split(tail, d) + [""]
    ensures Split(s + [d], d) == Split(s, d) + [""]
  {
    var i := IndexOf(s, d);
    var tail := s[i + 1..];
    SplitTrailingStep(s, d);
    ConsSnoc(s[..i], Split(tail + [d], d), Split(tail, d), "");
  }

  lemma ConsSnoc<T>(h: T, y: seq<T>, z: seq<T>, last: T)
    requires y == z + [last]
    ensures [h] + y == ([h] + z) + [last]
  {
  }

  lemma SplitTrailingStep(s: string, d: char)
    requires IndexOf(s, d) >= 0
    ensures var i := IndexOf(s, d);
      Split(s + [d], d) == [s[..i]] + Split(s[i + 1..] + [d], d) &&
      Split(s, d) == [s[..i]] + Split(s[i + 1..], d)
  {
    var t := s + [d];
    var i := IndexOf(s, d);
    assert t[..i] == s[..i];
    IndexOfIs(t, d, i);
    assert t[i + 1..] == s[i + 1..] + [d];
  }

  // ---------------------------------------------------------------- numbers

  predicate IsDigits(s: string) {
    forall i :: 0 <= i < |s| ==> '0' <= s[i] <= '9'
  }

  function DigitChar(d: nat): (c: char)
    requires d < 10
    ensures '0' <= c <= '9' && c as int - '0' as int == d
  {
    ('0' as int + d) as char
  }

  /** The decimal digits of `n`, most significant first, without leading zeros (`String(n)`). */
  function NatToString(n: nat): (r: string)
    ensures r != [] && IsDigits(r)
    ensures r[0] == '0' ==> n == 0
  {
    if n < 10 then [DigitChar(n)] else NatToString(n / 10) + [DigitChar(n % 10)]
  }

  /** `String(i)` for an integer `i`. */
  function IntToString(i: int): (r: string)
    ensures r != []
  {
    if i < 0 then "-" + NatToString(-i) else NatToString(i)
  }

  /** The value of a string of decimal digits. */
  function ParseDigits(s: string): nat
    requires IsDigits(s)
  {
    if s == [] then 0 else ParseDigits(s[..|s| - 1]) * 10 + (s[|s| - 1] as int - '0' as int)
  }

  /** Rendering a number in decimal and reading it back gives the number. */
  lemma {:induction false} ParseNatToString(n: nat)
    ensures ParseDigits(NatToString(n)) == n
  {
    var r := NatToString(n);
    if n < 10 {
      assert r[..0] == [];
    } else {
      ParseNatToString(n / 10);
      assert r[..|r| - 1] == NatToString(n / 10);
    }
  }

  /** Different numbers render differently. */
  lemma NatToStringInjective(m: nat, n: nat)
    requires NatToString(m) == NatToString(n)
    ensures m == n
  {
    ParseNatToString(m);
    ParseNatToString(n);
  }
}
