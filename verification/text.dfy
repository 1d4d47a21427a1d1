/**
 The string operations the catalog relies on: `String.prototype.trim`,
 `toLowerCase` (ASCII letters only), `includes`, `Array.prototype.join`,
 and the decimal rendering of a positive count.
 */
module Text {

  /** ECMAScript WhiteSpace and LineTerminator code points: what `trim` removes. */
  predicate IsWhitespace(c: char) {
    || c == '\t' || c == '\U{B}' || c == '\U{C}' || c == ' ' || c == '\U{A0}' || c == '\U{FEFF}'
    || c == '\U{1680}' || ('\U{2000}' <= c <= '\U{200A}') || c == '\U{202F}' || c == '\U{205F}'
    || c == '\U{3000}' || c == '\n' || c == '\r' || c == '\U{2028}' || c == '\U{2029}'
  }

  /** `s` without its leading whitespace. */
  function TrimStart(s: string): (r: string)
    ensures |r| <= |s| && r == s[|s| - |r|..]
    ensures forall i :: 0 <= i < |s| - |r| ==> IsWhitespace(s[i])
    ensures r == [] || !IsWhitespace(r[0])
    decreases |s|
  {
    if |s| > 0 && IsWhitespace(s[0]) then TrimStart(s[1..]) else s
  }

  /** `s` without its trailing whitespace. */
  function TrimEnd(s: string): (r: string)
    ensures |r| <= |s| && r == s[..|r|]
    ensures forall i :: |r| <= i < |s| ==> IsWhitespace(s[i])
    ensures r == [] || !IsWhitespace(r[|r| - 1])
    decreases |s|
  {
    if |s| > 0 && IsWhitespace(s[|s| - 1]) then TrimEnd(s[..|s| - 1]) else s
  }

  /** `q` occurs in `h` starting at position `i`. */
  ghost predicate OccursAt(h: string, q: string, i: int) {
    0 <= i && i + |q| <= |h| && h[i..i + |q|] == q
  }

  /** `q` is a substring of `h`. */
  ghost predicate Infix(q: string, h: string) {
    exists i :: OccursAt(h, q, i)
  }

  /**
   `s.trim()`: the middle part of `s` that is left once every leading and
   trailing whitespace character is removed; it neither starts nor ends with
   whitespace, and it is empty exactly when `s` is all whitespace.
   */
  function Trim(s: string): (r: string)
    ensures |r| <= |s|
    ensures TrimmedFrom(s, r)
    ensures r == [] || (!IsWhitespace(r[0]) && !IsWhitespace(r[|r| - 1]))
    ensures r == [] <==> forall i :: 0 <= i < |s| ==> IsWhitespace(s[i])
  {
    TrimFacts(s);
    TrimEnd(TrimStart(s))
  }

  /** The promises of `Trim`, for the two one-sided trims applied in turn. */
  lemma TrimFacts(s: string)
    ensures |TrimEnd(TrimStart(s))| <= |s|
    ensures TrimmedFrom(s, TrimEnd(TrimStart(s)))
    ensures TrimEnd(TrimStart(s)) == [] || (!IsWhitespace(TrimEnd(TrimStart(s))[0]) && !IsWhitespace(TrimEnd(TrimStart(s))[|TrimEnd(TrimStart(s))| - 1]))
    ensures TrimEnd(TrimStart(s)) == [] <==> forall i :: 0 <= i < |s| ==> IsWhitespace(s[i])
  {
    var a := TrimStart(s);
    TrimSplits(s, a, TrimEnd(a));
  }

  /** `r` sits inside `s` with only whitespace before and after it. */
  ghost predicate TrimmedFrom(s: string, r: string) {
    exists k :: OccursAt(s, r, k)
                && (forall i :: 0 <= i < k ==> IsWhitespace(s[i]))
                && (forall i :: k + |r| <= i < |s| ==> IsWhitespace(s[i]))
  }

  /** The facts behind `Trim`, for a suffix `a` of `s` and a prefix `r` of `a` as the two trims produce them. */
  lemma TrimSplits(s: string, a: string, r: string)
    requires |a| <= |s| && a == s[|s| - |a|..]
    requires forall i :: 0 <= i < |s| - |a| ==> IsWhitespace(s[i])
    requires a == [] || !IsWhitespace(a[0])
    requires |r| <= |a| && r == a[..|r|]
    requires forall i :: |r| <= i < |a| ==> IsWhitespace(a[i])
    requires r == [] || !IsWhitespace(r[|r| - 1])
    ensures TrimmedFrom(s, r)
    ensures r == [] || !IsWhitespace(r[0])
    ensures r == [] <==> forall i :: 0 <= i < |s| ==> IsWhitespace(s[i])
  {
    var k := |s| - |a|;
    assert forall i :: k <= i < |s| ==> s[i] == a[i - k];
    assert s[k..k + |r|] == r;
    assert OccursAt(s, r, k);
    if r != [] {
      assert r[0] == a[0];
      assert !IsWhitespace(s[k]);
    }
  }

  /** `toLowerCase` on one character, restricted to the ASCII letters. */
  function LowerChar(c: char): (r: char)
    ensures 'A' <= c <= 'Z' ==> 'a' <= r <= 'z' && r as int - c as int == 32
    ensures !('A' <= c <= 'Z') ==> r == c
  {
    if 'A' <= c <= 'Z' then (c as int + 32) as char else c
  }

  /** `s.toLowerCase()`, character by character. */
  function Lower(s: string): (r: string)
    ensures |r| == |s|
    ensures forall i :: 0 <= i < |s| ==> r[i] == LowerChar(s[i])
  {
    if |s| == 0 then [] else [LowerChar(s[0])] + Lower(s[1..])
  }

  /** Lowering neither creates nor removes whitespace. */
  lemma LowerKeepsWhitespace(s: string)
    ensures forall i :: 0 <= i < |s| ==> (IsWhitespace(Lower(s)[i]) <==> IsWhitespace(s[i]))
  {
  }

  /** Lowering keeps whitespace off both ends of a string. */
  lemma LowerKeepsEnds(t: string)
    requires t == [] || (!IsWhitespace(t[0]) && !IsWhitespace(t[|t| - 1]))
    ensures Lower(t) == [] || (!IsWhitespace(Lower(t)[0]) && !IsWhitespace(Lower(t)[|t| - 1]))
  {
    LowerKeepsWhitespace(t);
  }

  /** Trimming commutes with lowering: a trimmed piece of `s`, lowered, is a trimmed piece of `s` lowered. */
  lemma LowerKeepsTrim(s: string, r: string)
    requires TrimmedFrom(s, r)
    ensures TrimmedFrom(Lower(s), Lower(r))
  {
    var k :| OccursAt(s, r, k)
             && (forall i :: 0 <= i < k ==> IsWhitespace(s[i]))
             && (forall i :: k + |r| <= i < |s| ==> IsWhitespace(s[i]));
    LowerKeepsTrimAt(s, r, k);
  }

  /** `LowerKeepsTrim` at a known position `k`. */
  lemma LowerKeepsTrimAt(s: string, r: string, k: int)
    requires OccursAt(s, r, k)
    requires forall i :: 0 <= i < k ==> IsWhitespace(s[i])
    requires forall i :: k + |r| <= i < |s| ==> IsWhitespace(s[i])
    ensures OccursAt(Lower(s), Lower(r), k)
    ensures forall i :: 0 <= i < k ==> IsWhitespace(Lower(s)[i])
    ensures forall i :: k + |Lower(r)| <= i < |Lower(s)| ==> IsWhitespace(Lower(s)[i])
  {
    LowerPreservesOccurrence(s, r, k);
    LowerKeepsWhitespace(s);
  }

  /** Lowering a string twice is lowering it once. */
  lemma LowerIdempotent(s: string)
    ensures Lower(Lower(s)) == Lower(s)
  {
  }

  /** An occurrence of `q` in `h` is an occurrence of lowered `q` in lowered `h`. */
  lemma LowerPreservesOccurrence(h: string, q: string, i: int)
    requires OccursAt(h, q, i)
    ensures OccursAt(Lower(h), Lower(q), i)
  {
    assert Lower(h)[i..i + |q|] == Lower(h[i..i + |q|]);
  }

  /** A substring of a part is a substring of any concatenation holding that part. */
  lemma InfixConcat(q: string, a: string, b: string, c: string)
    requires Infix(q, b)
    ensures Infix(q, a + b + c)
  {
    var i :| OccursAt(b, q, i);
    assert (a + b + c)[|a| + i..|a| + i + |q|] == b[i..i + |q|];
    assert OccursAt(a + b + c, q, |a| + i);
  }

  /** Every string is a substring of itself. */
  lemma InfixSelf(q: string)
    ensures Infix(q, q)
  {
    assert OccursAt(q, q, 0);
  }

  /** Being a substring is transitive. */
  lemma InfixTransitive(a: string, b: string, c: string)
    requires Infix(a, b) && Infix(b, c)
    ensures Infix(a, c)
  {
    var i :| OccursAt(b, a, i);
    var j :| OccursAt(c, b, j);
    assert forall m :: 0 <= m < |a| ==> a[m] == b[i + m] == c[j + i + m];
    assert c[j + i..j + i + |a|] == a;
    assert OccursAt(c, a, j + i);
  }

  /** `h.includes(q)`: whether `q` occurs somewhere in `h` (the empty string occurs everywhere). */
  function Contains(h: string, q: string): (b: bool)
    ensures b <==> Infix(q, h)
    decreases |h|
  {
    if |q| > |h| then false
    else if h[..|q|] == q then
      assert OccursAt(h, q, 0);
      true
    else
      var t := h[1..];
      assert forall i :: OccursAt(t, q, i) ==> OccursAt(h, q, i + 1) by {
        forall i | OccursAt(t, q, i) ensures OccursAt(h, q, i + 1) {
          assert h[i + 1..i + 1 + |q|] == t[i..i + |q|];
        }
      }
      assert forall i :: OccursAt(h, q, i) ==> OccursAt(t, q, i - 1) by {
        forall i | OccursAt(h, q, i) ensures OccursAt(t, q, i - 1) {
          assert i != 0;
          assert h[i..i + |q|] == t[i - 1..i - 1 + |q|];
        }
      }
      Contains(t, q)
  }

  /** `xs.join(sep)`: the elements separated by `sep`; `""` for no elements. */
  function Join(xs: seq<string>, sep: string): (r: string)
    ensures |xs| == 0 ==> r == ""
    ensures |xs| == 1 ==> r == xs[0]
    ensures forall i :: 0 <= i < |xs| ==> Infix(xs[i], r)
    decreases |xs|
  {
    if |xs| == 0 then ""
    else if |xs| == 1 then
      InfixSelf(xs[0]);
      xs[0]
    else
      var rest := Join(xs[1..], sep);
      var r := xs[0] + sep + rest;
      assert forall i :: 0 <= i < |xs| ==> Infix(xs[i], r) by {
        forall i | 0 <= i < |xs| ensures Infix(xs[i], r) {
          if i == 0 {
            InfixSelf(xs[0]);
            InfixConcat(xs[0], "", xs[0], sep + rest);
            assert "" + xs[0] + (sep + rest) == r;
          } else {
            assert xs[i] == xs[1..][i - 1];
            InfixConcat(xs[i], xs[0] + sep, rest, "");
            assert xs[0] + sep + rest + "" == r;
          }
        }
      }
      r
  }

  /**
   Joining grows from the end as well: appending an element to a non-empty
   list appends the separator and that element to the joined text.
   */
  lemma {:induction false} JoinSnoc(xs: seq<string>, x: string, sep: string)
    requires |xs| > 0
    ensures Join(xs + [x], sep) == Join(xs, sep) + sep + x
    decreases |xs|
  {
    if |xs| == 1 {
      assert (xs + [x])[1..] == [x];
    } else {
      assert (xs + [x])[1..] == xs[1..] + [x];
      JoinSnoc(xs[1..], x, sep);
    }
  }

  /** Two elements join around one separator. */
  lemma JoinPair(a: string, b: string, sep: string)
    ensures Join([a, b], sep) == a + sep + b
  {
    assert [a, b][1..] == [b];
  }

  predicate IsDigit(c: char) {
    '0' <= c <= '9'
  }

  /** The number a string of decimal digits denotes. */
  ghost function DigitsValue(s: string): nat
    requires forall i :: 0 <= i < |s| ==> IsDigit(s[i])
    decreases |s|
  {
    if |s| == 0 then 0
    else DigitsValue(s[..|s| - 1]) * 10 + DigitValue(s[|s| - 1])
  }

  function DigitValue(c: char): nat
    requires IsDigit(c)
  {
    c as int - '0' as int
  }

  /** The longest prefix of `s` made of decimal digits: how a reader takes a count off the front of a line. */
  function LeadingDigits(s: string): (r: string)
    ensures |r| <= |s| && r == s[..|r|]
    ensures forall i :: 0 <= i < |r| ==> IsDigit(r[i])
    ensures |r| == |s| || !IsDigit(s[|r|])
    decreases |s|
  {
    if |s| > 0 && IsDigit(s[0]) then [s[0]] + LeadingDigits(s[1..]) else []
  }

  /** A natural number in decimal digits without leading zeros, as JavaScript writes an integer below 10^21. */
  function Decimal(n: nat): (s: string)
    ensures |s| >= 1
    ensures forall i :: 0 <= i < |s| ==> IsDigit(s[i])
    ensures DigitsValue(s) == n
    ensures |s| == 1 || s[0] != '0'
    decreases n
  {
    var last := [(n % 10 + '0' as int) as char];
    if n < 10 then
      last
    else
      var prefix := Decimal(n / 10);
      var s := prefix + last;
      assert s[..|s| - 1] == prefix;
      s
  }

  /** The leading digits of a digit string followed by a non-digit are that digit string. */
  lemma {:induction false} LeadingDigitsOfConcat(d: string, rest: string)
    requires forall i :: 0 <= i < |d| ==> IsDigit(d[i])
    requires |rest| > 0 && !IsDigit(rest[0])
    ensures LeadingDigits(d + rest) == d
    decreases |d|
  {
    if |d| > 0 {
      assert (d + rest)[1..] == d[1..] + rest;
      LeadingDigitsOfConcat(d[1..], rest);
      assert d == [d[0]] + d[1..];
    }
  }
}
