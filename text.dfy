/**
 * Character and string helpers standing for the Python `str` methods the
 * program calls: `isalpha`, `upper`, `lower`, `strip`, `split`, `replace`,
 * `startswith`, `in`, string comparison and decimal formatting.
 */
module Text {

  predicate IsAsciiDigit(c: char) { '0' <= c <= '9' }
  predicate IsAsciiUpper(c: char) { 'A' <= c <= 'Z' }
  predicate IsAsciiLower(c: char) { 'a' <= c <= 'z' }

  /** The CJK unified ideographs block, where the exchanges' seat names live. */
  predicate IsCjk(c: char) { '\U{4E00}' <= c <= '\U{9FFF}' }

  /** `str.isalpha`, restricted to ASCII letters and CJK ideographs. */
  predicate IsAlpha(c: char) { IsAsciiUpper(c) || IsAsciiLower(c) || IsCjk(c) }

  /** The characters Python's `str.isspace` accepts (what `strip()` removes). */
  predicate IsSpace(c: char)
  {
    ('\t' <= c <= '\r') || ('\U{1C}' <= c <= '\U{20}') || c == '\U{85}' || c == '\U{A0}'
    || c == '\U{1680}' || ('\U{2000}' <= c <= '\U{200A}') || c == '\U{2028}' || c == '\U{2029}'
    || c == '\U{202F}' || c == '\U{205F}' || c == '\U{3000}'
  }

  function UpperChar(c: char): (u: char)
    ensures IsAlpha(u) == IsAlpha(c)
    ensures !IsAsciiLower(u)
    ensures !IsAsciiLower(c) ==> u == c
  {
    if IsAsciiLower(c) then (c as int - 32) as char else c
  }

  function LowerChar(c: char): (l: char)
    ensures !IsAsciiUpper(l)
    ensures !IsAsciiUpper(c) ==> l == c
  {
    if IsAsciiUpper(c) then (c as int + 32) as char else c
  }

  /** `str.upper` on the modelled alphabet. */
  function Upper(s: string): (r: string)
    ensures |r| == |s|
    ensures forall i :: 0 <= i < |s| ==> r[i] == UpperChar(s[i])
  {
    if s == [] then [] else [UpperChar(s[0])] + Upper(s[1..])
  }

  /** `str.lower` on the modelled alphabet. */
  function Lower(s: string): (r: string)
    ensures |r| == |s|
    ensures forall i :: 0 <= i < |s| ==> r[i] == LowerChar(s[i])
  {
    if s == [] then [] else [LowerChar(s[0])] + Lower(s[1..])
  }

  predicate AllAlpha(s: string) { forall i :: 0 <= i < |s| ==> IsAlpha(s[i]) }
  predicate NoLower(s: string) { forall i :: 0 <= i < |s| ==> !IsAsciiLower(s[i]) }
  predicate AllDigits(s: string) { forall i :: 0 <= i < |s| ==> IsAsciiDigit(s[i]) }

  /** `''.join(c for c in s if c.isalpha())`. */
  function AlphaOnly(s: string): (r: string)
    ensures AllAlpha(r)
    ensures |r| <= |s|
    ensures AllAlpha(s) ==> r == s
  {
    if s == [] then []
    else (if IsAlpha(s[0]) then [s[0]] else []) + AlphaOnly(s[1..])
  }

  /** Keeping the letters of two texts one after the other keeps the letters of each, in order. */
  lemma {:induction false} AlphaOnlyAppend(a: string, b: string)
    ensures AlphaOnly(a + b) == AlphaOnly(a) + AlphaOnly(b)
  {
    if a == [] {
      assert a + b == b;
    } else {
      var head := if IsAlpha(a[0]) then [a[0]] else [];
      assert (a + b)[0] == a[0] && (a + b)[1..] == a[1..] + b;
      assert AlphaOnly(a + b) == head + AlphaOnly(a[1..] + b);
      AlphaOnlyAppend(a[1..], b);
      assert AlphaOnly(a) == head + AlphaOnly(a[1..]);
    }
  }

  /** A single character is kept exactly when it is a letter. */
  lemma AlphaOnlySingle(x: char)
    ensures AlphaOnly([x]) == if IsAlpha(x) then [x] else []
  {
  }

  /** Upper-casing two texts one after the other upper-cases each. */
  lemma UpperAppend(a: string, b: string)
    ensures Upper(a + b) == Upper(a) + Upper(b)
  {
    assert forall i :: 0 <= i < |a + b| ==> Upper(a + b)[i] == (Upper(a) + Upper(b))[i];
  }

  lemma UpperKeepsAlpha(s: string)
    requires AllAlpha(s)
    ensures AllAlpha(Upper(s)) && NoLower(Upper(s))
  {
  }

  lemma UpperIdempotent(s: string)
    requires NoLower(s)
    ensures Upper(s) == s
  {
  }

  /** `s.split(sep)[-1]`: the longest suffix of `s` without `sep`. */
  function AfterLast(s: string, sep: char): (r: string)
    ensures |r| <= |s| && r == s[|s| - |r|..]
    ensures sep !in r
    ensures |r| < |s| ==> s[|s| - |r| - 1] == sep
  {
    if s == [] then []
    else if s[|s| - 1] == sep then []
    else AfterLast(s[..|s| - 1], sep) + [s[|s| - 1]]
  }

  /** `s.replace(from, to)` for single characters. */
  function ReplaceChar(s: string, from: char, to: char): (r: string)
    ensures |r| == |s|
    ensures forall i :: 0 <= i < |s| ==> r[i] == (if s[i] == from then to else s[i])
  {
    if s == [] then [] else [if s[0] == from then to else s[0]] + ReplaceChar(s[1..], from, to)
  }

  /** `s.replace(c, '')`. */
  function RemoveChar(s: string, c: char): (r: string)
    ensures c !in r
    ensures |r| <= |s|
    ensures c !in s ==> r == s
    ensures forall x :: x in r ==> x in s
  {
    if s == [] then [] else (if s[0] == c then [] else [s[0]]) + RemoveChar(s[1..], c)
  }

  /** Removing a character from two texts one after the other removes it from each, keeping the rest in order. */
  lemma {:induction false} RemoveCharAppend(a: string, b: string, c: char)
    ensures RemoveChar(a + b, c) == RemoveChar(a, c) + RemoveChar(b, c)
  {
    if a == [] {
      assert a + b == b;
    } else {
      assert (a + b)[1..] == a[1..] + b;
      RemoveCharAppend(a[1..], b, c);
    }
  }

  /** A single character is dropped exactly when it is the removed one. */
  lemma RemoveCharSingle(x: char, c: char)
    ensures RemoveChar([x], c) == if x == c then [] else [x]
  {
  }

  /** `sub in s`. */
  predicate Contains(s: string, sub: string)
  {
    sub <= s || (s != [] && Contains(s[1..], sub))
  }

  lemma {:induction false} ContainsAt(s: string, sub: string, k: nat)
    requires k + |sub| <= |s| && s[k..k + |sub|] == sub
    ensures Contains(s, sub)
  {
    if k > 0 {
      ContainsAt(s[1..], sub, k - 1);
      assert s[1..][k - 1..k - 1 + |sub|] == s[k..k + |sub|];
    } else {
      assert sub <= s;
    }
  }

  function TrimStart(s: string): (r: string)
    ensures |r| <= |s| && r == s[|s| - |r|..]
    ensures r != [] ==> !IsSpace(r[0])
    ensures forall i :: 0 <= i < |s| - |r| ==> IsSpace(s[i])
  {
    if s != [] && IsSpace(s[0]) then TrimStart(s[1..]) else s
  }

  function TrimEnd(s: string): (r: string)
    ensures |r| <= |s| && r == s[..|r|]
    ensures r != [] ==> !IsSpace(r[|r| - 1])
    ensures forall i :: |r| <= i < |s| ==> IsSpace(s[i])
  {
    if s != [] && IsSpace(s[|s| - 1]) then TrimEnd(s[..|s| - 1]) else s
  }

  /** `str.strip()`. */
  function Strip(s: string): string
  {
    TrimEnd(TrimStart(s))
  }

  /** Text whose ends are not whitespace is left alone by `strip()`. */
  lemma StripUnchanged(s: string)
    requires s != [] ==> !IsSpace(s[0]) && !IsSpace(s[|s| - 1])
    ensures Strip(s) == s
  {
    assert TrimStart(s) == s;
  }

  /** A string strips to nothing exactly when every character is whitespace. */
  lemma StripEmptyIff(s: string)
    ensures |Strip(s)| == 0 <==> forall i :: 0 <= i < |s| ==> IsSpace(s[i])
  {
    var t := TrimStart(s);
    if |Strip(s)| == 0 {
      assert t == [];
    } else {
      var r := Strip(s);
      assert r[0] == t[0];
      assert !IsSpace(s[|s| - |t|]);
    }
  }

  /** Python's `a <= b` on strings: lexicographic by code point. */
  predicate StrLe(a: string, b: string)
  {
    if a == [] then true
    else if b == [] then false
    else if a[0] != b[0] then a[0] < b[0]
    else StrLe(a[1..], b[1..])
  }

  lemma {:induction false} StrLeTotal(a: string, b: string)
    ensures StrLe(a, b) || StrLe(b, a)
  {
    if a != [] && b != [] && a[0] == b[0] {
      StrLeTotal(a[1..], b[1..]);
    }
  }

  lemma {:induction false} StrLeTrans(a: string, b: string, c: string)
    requires StrLe(a, b) && StrLe(b, c)
    ensures StrLe(a, c)
  {
    if a != [] && b != [] && c != [] && a[0] == b[0] && b[0] == c[0] {
      StrLeTrans(a[1..], b[1..], c[1..]);
    }
  }

  lemma {:induction false} StrLeAntisym(a: string, b: string)
    requires StrLe(a, b) && StrLe(b, a)
    ensures a == b
  {
    if a != [] && b != [] {
      StrLeAntisym(a[1..], b[1..]);
      assert a == [a[0]] + a[1..] && b == [b[0]] + b[1..];
    }
  }

  function DigitChar(d: int): (c: char)
    requires 0 <= d <= 9
    ensures IsAsciiDigit(c)
  {
    ('0' as int + d) as char
  }

  function DigitValue(c: char): (d: nat)
    requires IsAsciiDigit(c)
    ensures d <= 9 && DigitChar(d) == c
  {
    c as int - '0' as int
  }

  /** `str(n)` for a natural number. */
  function NatToString(n: nat): (s: string)
    ensures |s| >= 1 && AllDigits(s)
    ensures n < 10 <==> |s| == 1
    decreases n
  {
    if n < 10 then [DigitChar(n)] else NatToString(n / 10) + [DigitChar(n % 10)]
  }

  /** `int(s)` for a string of ASCII digits. */
  function DigitsValue(s: string): nat
    requires AllDigits(s)
  {
    if s == [] then 0 else DigitsValue(s[..|s| - 1]) * 10 + DigitValue(s[|s| - 1])
  }

  /** Formatting and parsing a natural number are inverse. */
  lemma {:induction false} DigitsValueOfNatToString(n: nat)
    ensures DigitsValue(NatToString(n)) == n
    decreases n
  {
    if n >= 10 {
      var s := NatToString(n);
      assert s[..|s| - 1] == NatToString(n / 10);
      DigitsValueOfNatToString(n / 10);
    }
  }

  /** The last digit of `str(n)` is `n % 10`. */
  lemma NatToStringLast(n: nat)
    ensures var s := NatToString(n); s[|s| - 1] == DigitChar(n % 10)
  {
  }

  /** `str(n)[-2:]` reads back as `n % 100`, and has two digits from 10 on. */
  lemma LastTwoOfNatToString(n: nat)
    ensures var r := LastTwo(NatToString(n));
      AllDigits(r) && DigitsValue(r) == n % 100 && (n >= 10 ==> |r| == 2)
  {
    var s := NatToString(n);
    var r := LastTwo(s);
    if n >= 10 {
      NatToStringLast(n / 10);
      assert s[..|s| - 1] == NatToString(n / 10);
      LastTwoDigitsOf(n);
      assert r == TwoDigits(n % 100);
    } else {
      assert r == [DigitChar(n)] && r[..0] == [];
    }
  }

  lemma LastTwoDigitsOf(n: nat)
    ensures (n % 100) / 10 == (n / 10) % 10 && (n % 100) % 10 == n % 10
  {
    var a, m := n % 10, n / 10;
    var b, q := m % 10, m / 10;
    assert n == 100 * q + (10 * b + a);
    assert 0 <= 10 * b + a < 100;
    assert n % 100 == 10 * b + a;
    assert (10 * b + a) / 10 == b && (10 * b + a) % 10 == a;
  }

  /** `f"{n:02d}"` for `0 <= n < 100`. */
  function TwoDigits(n: nat): (s: string)
    requires n < 100
    ensures |s| == 2 && AllDigits(s) && DigitsValue(s) == n
  {
    var s := [DigitChar(n / 10), DigitChar(n % 10)];
    assert s[..1] == [DigitChar(n / 10)] && s[..1][..0] == [];
    assert DigitsValue(s[..1]) == n / 10;
    s
  }

  /** `s[-2:]`. */
  function LastTwo(s: string): (r: string)
    ensures |r| == if |s| < 2 then |s| else 2
    ensures r == s[|s| - |r|..]
  {
    if |s| < 2 then s else s[|s| - 2..]
  }
}
