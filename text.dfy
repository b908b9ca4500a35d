/** The string primitives of the label tool, modelled on JavaScript's:
    `trim`, ASCII `toUpperCase`, `slice(0, n)`, removal of non-digits,
    `String(n)` for a non-negative integer, `includes`, and the two forms
    of `replace` the route uses. */
module Text {
  import opened Basics

  /** The characters `String.prototype.trim` removes: the WhiteSpace and
      LineTerminator code points of ECMAScript (tab, line feed, vertical
      tab, form feed, carriage return, the space separators of category Zs,
      the two Unicode line terminators and the byte order mark). */
  predicate IsSpace(c: char)
  {
    || c == '\t' || c == '\n' || c == '\U{000B}' || c == '\U{000C}' || c == '\r'
    || c == ' ' || c == '\U{00A0}' || c == '\U{1680}'
    || ('\U{2000}' <= c <= '\U{200A}')
    || c == '\U{2028}' || c == '\U{2029}' || c == '\U{202F}' || c == '\U{205F}'
    || c == '\U{3000}' || c == '\U{FEFF}'
  }

  /** Neither end of `s` is a space character. */
  predicate IsTrimmed(s: string)
  {
    s == [] || (!IsSpace(s[0]) && !IsSpace(s[|s| - 1]))
  }

  /** `s` with its leading space characters removed. */
  function TrimStart(s: string): (r: string)
    ensures |r| <= |s| && r == s[|s| - |r|..]
    ensures forall k :: 0 <= k < |s| - |r| ==> IsSpace(s[k])
    ensures r == [] || !IsSpace(r[0])
  {
    if s != [] && IsSpace(s[0]) then TrimStart(s[1..]) else s
  }

  /** `s` with its trailing space characters removed. */
  function TrimEnd(s: string): (r: string)
    ensures |r| <= |s| && r == s[..|r|]
    ensures forall k :: |r| <= k < |s| ==> IsSpace(s[k])
    ensures r == [] || !IsSpace(r[|r| - 1])
  {
    if s != [] && IsSpace(s[|s| - 1]) then TrimEnd(s[..|s| - 1]) else s
  }

  /** `s.trim()`: the result has no space at either end, is empty exactly
      when `s` is all spaces, and is `s` itself when `s` is already trimmed
      (TrimIsSlice says which part of `s` it is). */
  function Trim(s: string): (r: string)
    ensures IsTrimmed(r) && |r| <= |s|
    ensures r == [] <==> forall k :: 0 <= k < |s| ==> IsSpace(s[k])
    ensures IsTrimmed(s) ==> r == s
  {
    TrimBothEnds(s);
    TrimEnd(TrimStart(s))
  }

  /** The facts `Trim` promises, about its two halves. */
  lemma TrimBothEnds(s: string)
    ensures IsTrimmed(TrimEnd(TrimStart(s))) && |TrimEnd(TrimStart(s))| <= |s|
    ensures TrimEnd(TrimStart(s)) == [] <==> forall k :: 0 <= k < |s| ==> IsSpace(s[k])
    ensures IsTrimmed(s) ==> TrimEnd(TrimStart(s)) == s
  {
    var t := TrimStart(s);
    var r := TrimEnd(t);
    var off := |s| - |t|;
    assert r != [] ==> r[0] == t[0];
    if IsTrimmed(s) && s != [] {
      assert off == 0;
      assert t == s;
    }
  }

  /** Trimming cuts only spaces, and only off the two ends: the result is a
      slice `s[i..j]` with nothing but spaces before `i` and from `j` on.
      With `IsTrimmed` this fixes the result. */
  lemma TrimIsSlice(s: string)
    ensures exists i, j ::
      && 0 <= i <= j <= |s| && Trim(s) == s[i..j]
      && (forall k :: 0 <= k < i ==> IsSpace(s[k]))
      && (forall k :: j <= k < |s| ==> IsSpace(s[k]))
  {
    var t := TrimStart(s);
    var r := TrimEnd(t);
    var i := |s| - |t|;
    var j := i + |r|;
    assert r == s[i..j];
    forall k | j <= k < |s|
      ensures IsSpace(s[k])
    {
      assert s[k] == t[k - i];
    }
    assert Trim(s) == r;
    assert && 0 <= i <= j <= |s| && Trim(s) == s[i..j]
      && (forall k :: 0 <= k < i ==> IsSpace(s[k]))
      && (forall k :: j <= k < |s| ==> IsSpace(s[k]));
  }

  /** Every character of `s` is a space: `!s.trim()`. */
  predicate AllSpace(s: string)
  {
    s == [] || (IsSpace(s[0]) && AllSpace(s[1..]))
  }

  /** A string is all spaces exactly when trimming it leaves nothing. */
  lemma {:induction false} AllSpaceTrim(s: string)
    ensures AllSpace(s) <==> Trim(s) == ""
  {
    if s != [] {
      AllSpaceTrim(s[1..]);
      assert forall k :: 0 <= k < |s[1..]| ==> s[1..][k] == s[k + 1];
    }
  }

  /** Trimming twice is trimming once. */
  lemma TrimIdempotent(s: string)
    ensures Trim(Trim(s)) == Trim(s)
  {
  }

  /** ASCII upper case of one character. */
  function UpperChar(c: char): (u: char)
    ensures !('a' <= u <= 'z')
    ensures !('a' <= c <= 'z') ==> u == c
    ensures 'a' <= c <= 'z' ==> 'A' <= u <= 'Z'
    ensures 'a' <= c <= 'z' ==> u as int - 'A' as int == c as int - 'a' as int
  {
    if 'a' <= c <= 'z' then (c as int - 32) as char else c
  }

  /** `s.toUpperCase()` on ASCII letters; every other character is kept. */
  function ToUpper(s: string): (r: string)
    ensures |r| == |s|
    ensures forall k :: 0 <= k < |s| ==> r[k] == UpperChar(s[k])
  {
    seq(|s|, k requires 0 <= k < |s| => UpperChar(s[k]))
  }

  /** Upper-casing keeps a trimmed string trimmed and keeps it non-empty. */
  lemma ToUpperTrimmed(s: string)
    requires IsTrimmed(s)
    ensures IsTrimmed(ToUpper(s)) && (ToUpper(s) == [] <==> s == [])
  {
  }

  /** The characters `\d` matches. */
  predicate IsDigit(c: char)
  {
    '0' <= c <= '9'
  }

  /** `s.replace(/\D/g, '')`: the digits of `s`, in order. */
  function Digits(s: string): (r: string)
    ensures forall k :: 0 <= k < |r| ==> IsDigit(r[k])
    ensures (exists k :: 0 <= k < |s| && IsDigit(s[k])) <==> r != []
  {
    FilterNonEmpty(s, IsDigit);
    Filter(s, IsDigit)
  }

  /** `s.slice(0, n)`. */
  function Take(s: string, n: nat): (r: string)
    ensures |r| <= n && |r| <= |s|
    ensures r == s[..|r|]
    ensures |r| == if |s| < n then |s| else n
  {
    if |s| <= n then s else s[..n]
  }

  function DigitChar(d: nat): char
    requires d < 10
  {
    ('0' as int + d) as char
  }

  /** `String(n)` for a non-negative integer: decimal digits, no leading zero. */
  function Decimal(n: nat): (r: string)
    ensures |r| >= 1
    ensures forall k :: 0 <= k < |r| ==> IsDigit(r[k])
    ensures |r| > 1 ==> r[0] != '0'
  {
    if n < 10 then [DigitChar(n)] else Decimal(n / 10) + [DigitChar(n % 10)]
  }

  /** The number a string of decimal digits denotes. */
  function DigitsValue(s: string): nat
    requires forall k :: 0 <= k < |s| ==> IsDigit(s[k])
  {
    if s == [] then 0
    else
      var last := s[|s| - 1];
      assert IsDigit(last);
      DigitsValue(s[..|s| - 1]) * 10 + (last as int - '0' as int)
  }

  /** Reading back the digits `String(n)` writes gives `n`. */
  lemma {:induction false} DecimalRoundTrip(n: nat)
    ensures DigitsValue(Decimal(n)) == n
  {
    if n >= 10 {
      var d := Decimal(n);
      assert d[..|d| - 1] == Decimal(n / 10);
      DecimalRoundTrip(n / 10);
    }
  }

  /** `s.includes(sub)`. */
  function Contains(s: string, sub: string): bool
  {
    if |s| < |sub| then false
    else s[..|sub|] == sub || Contains(s[1..], sub)
  }

  /** `s.replace(/c/g, rep)`: every `c` replaced by `rep`. */
  function ReplaceAll(s: string, c: char, rep: string): (r: string)
    ensures c !in rep ==> c !in r
    ensures c !in s ==> r == s
  {
    if s == [] then []
    else (if s[0] == c then rep else [s[0]]) + ReplaceAll(s[1..], c, rep)
  }

  /** Replacing in a concatenation replaces in each part. */
  lemma {:induction false} ReplaceAllAppend(a: string, b: string, c: char, rep: string)
    ensures ReplaceAll(a + b, c, rep) == ReplaceAll(a, c, rep) + ReplaceAll(b, c, rep)
  {
    if a == [] {
      assert a + b == b;
    } else {
      assert (a + b)[1..] == a[1..] + b;
      ReplaceAllAppend(a[1..], b, c, rep);
    }
  }

  /** `s.replace(pat, rep)` with a string pattern: only the first
      occurrence of `pat` is replaced. */
  function ReplaceFirst(s: string, pat: string, rep: string): string
    decreases |s|
  {
    if |s| < |pat| then s
    else if s[..|pat|] == pat then rep + s[|pat|..]
    else [s[0]] + ReplaceFirst(s[1..], pat, rep)
  }
}
