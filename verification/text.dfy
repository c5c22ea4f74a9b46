/** The JavaScript string built-ins the application relies on: `trim`,
    `includes`, `replace(/\D/g, '')`, the `/^\d+$/` test, decimal
    `toString` and `padStart`. Strings are sequences of code points. */
module Text {

  /** ECMAScript WhiteSpace and LineTerminator code points (what `trim` removes). */
  predicate IsWhitespace(c: char) {
    || c == ' ' || c == '\t' || c == '\n' || c == '\r'
    || c == '\U{000B}' || c == '\U{000C}' || c == '\U{00A0}' || c == '\U{FEFF}'
    || c == '\U{1680}' || ('\U{2000}' <= c <= '\U{200A}')
    || c == '\U{2028}' || c == '\U{2029}' || c == '\U{202F}' || c == '\U{205F}'
    || c == '\U{3000}'
  }

  ghost predicate IsBlank(s: string) {
    forall i :: 0 <= i < |s| ==> IsWhitespace(s[i])
  }

  /** True when `s` neither starts nor ends with whitespace. */
  ghost predicate IsTrimmed(s: string) {
    |s| == 0 || (!IsWhitespace(s[0]) && !IsWhitespace(s[|s| - 1]))
  }

  function TrimStart(s: string): (r: string)
    ensures |r| <= |s| && r == s[|s| - |r|..]
    ensures IsBlank(s[..|s| - |r|])
    ensures |r| == 0 || !IsWhitespace(r[0])
  {
    if |s| > 0 && IsWhitespace(s[0]) then TrimStart(s[1..]) else s
  }

  function TrimEnd(s: string): (r: string)
    ensures |r| <= |s| && r == s[..|r|]
    ensures IsBlank(s[|r|..])
    ensures |r| == 0 || !IsWhitespace(r[|r| - 1])
  {
    if |s| > 0 && IsWhitespace(s[|s| - 1]) then TrimEnd(s[..|s| - 1]) else s
  }

  /** `String.prototype.trim`. */
  function Trim(s: string): (r: string)
    ensures IsTrimmed(r)
    ensures |r| <= |s|
    ensures r == "" <==> IsBlank(s)
  {
    var t := TrimEnd(TrimStart(s));
    TrimBlankIff(s);
    t
  }

  lemma TrimBlankIff(s: string)
    ensures TrimEnd(TrimStart(s)) == "" <==> IsBlank(s)
  {
    var a := TrimStart(s);
    var k := |s| - |a|;
    assert s == s[..k] + a;
    if TrimEnd(a) == "" {
      assert IsBlank(a[0..]);
      assert a[0..] == a;
      assert |a| == 0;
      assert s == s[..k];
    } else {
      assert |a| > 0;
      assert a[0] == s[k];
      assert !IsWhitespace(s[k]);
    }
  }

  /** Trimming takes out a contiguous infix, and only whitespace around it. */
  lemma TrimIsInfix(s: string) returns (i: nat)
    ensures i + |Trim(s)| <= |s|
    ensures s[i..i + |Trim(s)|] == Trim(s)
    ensures IsBlank(s[..i]) && IsBlank(s[i + |Trim(s)|..])
  {
    var a := TrimStart(s);
    var r := TrimEnd(a);
    assert Trim(s) == r;
    i := |s| - |a|;
    assert a == s[i..];
    assert r == a[..|r|] == s[i..i + |r|];
    assert s[i + |r|..] == a[|r|..];
  }

  /** Trimming a trimmed string changes nothing, so trimming is idempotent. */
  lemma {:induction false} TrimmedIsFixed(s: string)
    requires IsTrimmed(s)
    ensures Trim(s) == s
  {
  }

  lemma TrimIdempotent(s: string)
    ensures Trim(Trim(s)) == Trim(s)
  {
    TrimmedIsFixed(Trim(s));
  }

  /** `s` occurs in `t` starting at index `i`. */
  ghost predicate OccursAt(t: string, s: string, i: int) {
    0 <= i && i + |s| <= |t| && t[i..i + |s|] == s
  }

  /** `String.prototype.includes`. */
  function Contains(t: string, s: string): (b: bool)
    ensures b <==> exists i :: OccursAt(t, s, i)
    decreases |t|
  {
    if |s| > |t| then false
    else if t[..|s|] == s then
      assert OccursAt(t, s, 0);
      true
    else
      OccursAfterFirst(t, s);
      Contains(t[1..], s)
  }

  /** When `s` is not at the start of `t`, it occurs in `t` exactly when it occurs in `t[1..]`. */
  lemma OccursAfterFirst(t: string, s: string)
    requires |s| <= |t| && t[..|s|] != s
    ensures (exists i :: OccursAt(t, s, i)) <==> (exists i :: OccursAt(t[1..], s, i))
  {
    if j :| OccursAt(t[1..], s, j) {
      assert t[1..][j..j + |s|] == t[j + 1..j + 1 + |s|];
      assert OccursAt(t, s, j + 1);
    }
    if i :| OccursAt(t, s, i) {
      assert i != 0;
      assert t[i..i + |s|] == t[1..][i - 1..i - 1 + |s|];
      assert OccursAt(t[1..], s, i - 1);
    }
  }

  /** A string with a character that `t` lacks does not occur in `t`. */
  lemma MissingCharNotContained(t: string, s: string, c: char)
    requires c in s && c !in t
    ensures !Contains(t, s)
  {
    var k :| 0 <= k < |s| && s[k] == c;
    forall i | 0 <= i ensures !OccursAt(t, s, i) {
      if i + |s| <= |t| {
        assert t[i..i + |s|][k] == t[i + k];
      }
    }
  }

  predicate IsDigit(c: char) {
    '0' <= c <= '9'
  }

  /** `/^\d+$/.test(s)`: at least one character and every character an ASCII digit. */
  predicate IsDigits(s: string) {
    |s| > 0 && forall i :: 0 <= i < |s| ==> IsDigit(s[i])
  }

  /** `s.replace(/\D/g, '')`: drops every character that is not an ASCII digit. */
  function StripNonDigits(s: string): (r: string)
    ensures |r| <= |s|
    ensures forall i :: 0 <= i < |r| ==> IsDigit(r[i])
  {
    if |s| == 0 then ""
    else if IsDigit(s[0]) then [s[0]] + StripNonDigits(s[1..])
    else StripNonDigits(s[1..])
  }

  /** Stripping works character by character: it distributes over concatenation. */
  lemma {:induction false} StripNonDigitsAppend(a: string, b: string)
    ensures StripNonDigits(a + b) == StripNonDigits(a) + StripNonDigits(b)
    decreases |a|
  {
    if |a| > 0 {
      assert (a + b)[0] == a[0];
      assert (a + b)[1..] == a[1..] + b;
      assert |a + b| > 0;
      StripNonDigitsAppend(a[1..], b);
      if IsDigit(a[0]) {
        assert [a[0]] + (StripNonDigits(a[1..]) + StripNonDigits(b))
            == ([a[0]] + StripNonDigits(a[1..])) + StripNonDigits(b);
      }
    } else {
      assert a + b == b;
    }
  }

  /** On one character: a digit is kept and anything else is dropped. With
      `StripNonDigitsAppend` this fixes the result for every string. */
  lemma StripNonDigitsOne(c: char)
    ensures StripNonDigits([c]) == if IsDigit(c) then [c] else []
  {
    assert [c][1..] == [];
  }

  /** A string made only of digits comes through unchanged, so stripping is idempotent. */
  lemma {:induction false} StripNonDigitsKeepsDigits(s: string)
    requires forall i :: 0 <= i < |s| ==> IsDigit(s[i])
    ensures StripNonDigits(s) == s
    decreases |s|
  {
    if |s| > 0 {
      StripNonDigitsKeepsDigits(s[1..]);
    }
  }

  function DigitChar(d: nat): (c: char)
    requires d < 10
    ensures IsDigit(c)
  {
    ['0', '1', '2', '3', '4', '5', '6', '7', '8', '9'][d]
  }

  function DigitValue(c: char): (d: nat)
    requires IsDigit(c)
    ensures d < 10 && DigitChar(d) == c
  {
    (c as int - '0' as int) as nat
  }

  /** The number a string of decimal digits denotes. */
  function DigitsValue(s: string): nat
    requires forall i :: 0 <= i < |s| ==> IsDigit(s[i])
  {
    if |s| == 0 then 0 else DigitsValue(s[..|s| - 1]) * 10 + DigitValue(s[|s| - 1])
  }

  /** `n.toString()` for a non-negative integer. */
  function NatToString(n: nat): (r: string)
    ensures IsDigits(r)
    ensures DigitsValue(r) == n
    ensures |r| > 1 ==> r[0] != '0'
    ensures n < 10 <==> |r| == 1
  {
    if n < 10 then [DigitChar(n)]
    else
      var p := NatToString(n / 10);
      var r := p + [DigitChar(n % 10)];
      assert r[..|r| - 1] == p;
      r
  }

  /** `s.padStart(2, '0')`. */
  function PadStart2(s: string): (r: string)
    ensures |s| >= 2 ==> r == s
    ensures |s| < 2 ==> |r| == 2 && r[2 - |s|..] == s && forall i :: 0 <= i < 2 - |s| ==> r[i] == '0'
    decreases 2 - |s|
  {
    if |s| >= 2 then s else PadStart2("0" + s)
  }
}
