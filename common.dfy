/**
 * Values and string operations shared by the back end (Java) and the front end
 * (TypeScript) of the to-do application: optional values, results, the two
 * runtimes' notions of white space and trimming, substring search, ASCII case
 * mapping, decimal rendering and lexicographic comparison.
 */
module Common {

  /** A Java reference that may be null, or a TypeScript value that may be undefined. */
  datatype Option<T> = None | Some(value: T)

  /** The outcome of an operation that either returns a value or throws. */
  datatype Result<T, E> = Ok(value: T) | Err(error: E)

  /** Whose definition of white space a trim or blank check follows. */
  datatype Runtime = Java | JavaScript

  /**
   * Java's String.trim strips every character whose code is at most U+0020;
   * JavaScript's String.prototype.trim strips the ECMAScript WhiteSpace and
   * LineTerminator characters.
   */
  predicate IsSpace(rt: Runtime, c: char)
  {
    match rt
    case Java => c <= ' '
    case JavaScript =>
      c == '\t' || c == '\n' || c == '\U{B}' || c == '\U{C}' || c == '\r' || c == ' '
      || c == '\U{A0}' || c == '\U{1680}' || ('\U{2000}' <= c <= '\U{200A}')
      || c == '\U{2028}' || c == '\U{2029}' || c == '\U{202F}' || c == '\U{205F}'
      || c == '\U{3000}' || c == '\U{FEFF}'
  }

  predicate AllSpace(rt: Runtime, s: string)
  {
    forall k :: 0 <= k < |s| ==> IsSpace(rt, s[k])
  }

  /** The position of the first non-space at or after i, or |s| when there is none. */
  function SkipSpaces(rt: Runtime, s: string, i: nat): (n: nat)
    requires i <= |s|
    ensures i <= n <= |s|
    ensures forall k :: i <= k < n ==> IsSpace(rt, s[k])
    ensures n < |s| ==> !IsSpace(rt, s[n])
    decreases |s| - i
  {
    if i < |s| && IsSpace(rt, s[i]) then SkipSpaces(rt, s, i + 1) else i
  }

  /** The position just after the last non-space before j, or 0 when there is none. */
  function BackOverSpaces(rt: Runtime, s: string, j: nat): (n: nat)
    requires j <= |s|
    ensures n <= j
    ensures forall k :: n <= k < j ==> IsSpace(rt, s[k])
    ensures n > 0 ==> !IsSpace(rt, s[n - 1])
  {
    if j > 0 && IsSpace(rt, s[j - 1]) then BackOverSpaces(rt, s, j - 1) else j
  }

  /** Drops the leading white space: the result is the suffix of s that starts at its first non-space. */
  function TrimLeft(rt: Runtime, s: string): (r: string)
    ensures |r| <= |s| && r == s[|s| - |r|..]
    ensures AllSpace(rt, s[..|s| - |r|])
    ensures r != [] ==> !IsSpace(rt, r[0])
  {
    var n := SkipSpaces(rt, s, 0);
    assert forall k :: 0 <= k < n ==> s[..n][k] == s[k];
    s[n..]
  }

  /** Drops the trailing white space: the result is the prefix of s that ends at its last non-space. */
  function TrimRight(rt: Runtime, s: string): (r: string)
    ensures |r| <= |s| && r == s[..|r|]
    ensures AllSpace(rt, s[|r|..])
    ensures r != [] ==> !IsSpace(rt, r[|r| - 1])
  {
    var n := BackOverSpaces(rt, s, |s|);
    assert forall k :: 0 <= k < |s| - n ==> s[n..][k] == s[n + k];
    s[..n]
  }

  /** s neither starts nor ends with white space. */
  predicate Trimmed(rt: Runtime, s: string)
  {
    s == [] || (!IsSpace(rt, s[0]) && !IsSpace(rt, s[|s| - 1]))
  }

  /** String.trim of the given runtime. */
  function Trim(rt: Runtime, s: string): (r: string)
    ensures |r| <= |s|
    ensures r == [] <==> AllSpace(rt, s)
    ensures Trimmed(rt, r)
    ensures exists i :: 0 <= i <= |s| - |r| && r == s[i..i + |r|] && AllSpace(rt, s[..i]) && AllSpace(rt, s[i + |r|..])
  {
    var l := TrimLeft(rt, s);
    var r := TrimRight(rt, l);
    assert r == [] ==> l == [];
    assert l == [] ==> s[..|s|] == s;
    assert r != [] ==> r[0] == l[0];
    var i := |s| - |l|;
    assert s[i..i + |r|] == l[..|r|];
    assert s[i + |r|..] == l[|r|..];
    assert r == s[i..i + |r|] && AllSpace(rt, s[..i]) && AllSpace(rt, s[i + |r|..]);
    r
  }

  /**
   * `s.trim().isEmpty()` in Java, `!s.trim()` in JavaScript: by the contract
   * of Trim, the trimmed string is empty exactly when every character is a space.
   */
  predicate IsBlank(rt: Runtime, s: string)
  {
    AllSpace(rt, s)
  }

  /** A string that starts and ends with a non-space is its own trim. */
  lemma TrimOfTrimmed(rt: Runtime, s: string)
    requires Trimmed(rt, s)
    ensures Trim(rt, s) == s
  {
  }

  /** A non-space at position i: no prefix that reaches past i and no suffix that starts at or before i is all spaces. */
  lemma NotAllSpaceAround(rt: Runtime, s: string, i: int)
    requires 0 <= i < |s| && !IsSpace(rt, s[i])
    ensures forall n :: i < n <= |s| ==> !AllSpace(rt, s[..n])
    ensures forall n :: 0 <= n <= i ==> !AllSpace(rt, s[n..])
  {
    forall n | i < n <= |s| ensures !AllSpace(rt, s[..n]) {
      assert s[..n][i] == s[i];
    }
    forall n | 0 <= n <= i ensures !AllSpace(rt, s[n..]) {
      assert s[n..][i - n] == s[i];
    }
  }

  /** TrimLeft removes exactly the white space before a text that starts with a non-space. */
  lemma TrimLeftPadding(rt: Runtime, p: string, y: string)
    requires AllSpace(rt, p) && y != [] && !IsSpace(rt, y[0])
    ensures TrimLeft(rt, p + y) == y
  {
    var s := p + y;
    assert s[|p|] == y[0];
    NotAllSpaceAround(rt, s, |p|);
    var l := TrimLeft(rt, s);
    assert |l| >= |y|;
    var n := |s| - |l|;
    assert s[n] == l[0];
    assert n == |p|;
    assert s[|p|..] == y;
  }

  /** TrimRight removes exactly the white space after a text that ends with a non-space. */
  lemma TrimRightPadding(rt: Runtime, y: string, q: string)
    requires AllSpace(rt, q) && y != [] && !IsSpace(rt, y[|y| - 1])
    ensures TrimRight(rt, y + q) == y
  {
    var s := y + q;
    assert s[|y| - 1] == y[|y| - 1];
    NotAllSpaceAround(rt, s, |y| - 1);
    var r := TrimRight(rt, s);
    assert |r| <= |s|;
    assert |r| >= |y|;
    assert r != [] && s[|r| - 1] == r[|r| - 1];
    assert |r| == |y|;
    assert s[..|y|] == y;
  }

  /** Trim removes exactly the white space around a trimmed, non-empty text. */
  lemma TrimPadding(rt: Runtime, p: string, x: string, q: string)
    requires AllSpace(rt, p) && AllSpace(rt, q) && x != [] && Trimmed(rt, x)
    ensures Trim(rt, p + x + q) == x
  {
    assert p + x + q == p + (x + q);
    assert (x + q)[0] == x[0];
    TrimLeftPadding(rt, p, x + q);
    TrimRightPadding(rt, x, q);
  }

  /** The trimmed string is a block of the original. */
  lemma TrimInside(rt: Runtime, s: string)
    ensures Contains(s, Trim(rt, s))
  {
    var l := TrimLeft(rt, s);
    var r := TrimRight(rt, l);
    var i := |s| - |l|;
    assert s[i..i + |r|] == r;
    ContainsAt(s, r, i);
  }

  /** Trimming twice is trimming once. */
  lemma TrimIdempotent(rt: Runtime, s: string)
    ensures Trim(rt, Trim(rt, s)) == Trim(rt, s)
  {
    TrimOfTrimmed(rt, Trim(rt, s));
  }

  /** `s.startsWith(p)`: p is a prefix of s. */
  predicate StartsWith(s: string, p: string)
  {
    |p| <= |s| && s[..|p|] == p
  }

  /** `s.contains(t)` in Java and `s.includes(t)` in JavaScript: t occurs in s as a contiguous block. */
  predicate Contains(s: string, t: string)
    decreases |s|
  {
    StartsWith(s, t) || (s != [] && Contains(s[1..], t))
  }

  /** Finding t at some position of s makes Contains true. */
  lemma {:induction false} ContainsAt(s: string, t: string, i: nat)
    requires i + |t| <= |s| && s[i..i + |t|] == t
    ensures Contains(s, t)
    decreases i
  {
    if i > 0 {
      assert s[1..][i - 1..i - 1 + |t|] == s[i..i + |t|];
      ContainsAt(s[1..], t, i - 1);
    }
  }

  /** Conversely, Contains gives a position at which t is found. */
  lemma {:induction false} ContainsWitness(s: string, t: string) returns (i: nat)
    requires Contains(s, t)
    ensures i + |t| <= |s| && s[i..i + |t|] == t
    decreases |s|
  {
    if StartsWith(s, t) {
      i := 0;
    } else {
      var j := ContainsWitness(s[1..], t);
      assert s[1..][j..j + |t|] == s[j + 1..j + 1 + |t|];
      i := j + 1;
    }
  }

  function LowerChar(c: char): (d: char)
  {
    if 'A' <= c <= 'Z' then (c as int + 32) as char else c
  }

  function UpperChar(c: char): (d: char)
  {
    if 'a' <= c <= 'z' then (c as int - 32) as char else c
  }

  /** toLowerCase restricted to ASCII letters; every other character is kept. */
  function ToLower(s: string): (r: string)
    ensures |r| == |s|
    ensures forall k :: 0 <= k < |s| ==> r[k] == LowerChar(s[k])
    ensures forall k :: 0 <= k < |r| ==> !('A' <= r[k] <= 'Z')
  {
    seq(|s|, k requires 0 <= k < |s| => LowerChar(s[k]))
  }

  /** toUpperCase restricted to ASCII letters; every other character is kept. */
  function ToUpper(s: string): (r: string)
    ensures |r| == |s|
    ensures forall k :: 0 <= k < |s| ==> r[k] == UpperChar(s[k])
    ensures forall k :: 0 <= k < |r| ==> !('a' <= r[k] <= 'z')
  {
    seq(|s|, k requires 0 <= k < |s| => UpperChar(s[k]))
  }

  /** A string without upper-case letters is its own lower case. */
  lemma ToLowerKeepsLowerCase(s: string)
    requires forall k :: 0 <= k < |s| ==> !('A' <= s[k] <= 'Z')
    ensures ToLower(s) == s
  {
  }

  /** A string without lower-case letters is its own upper case. */
  lemma ToUpperKeepsUpperCase(s: string)
    requires forall k :: 0 <= k < |s| ==> !('a' <= s[k] <= 'z')
    ensures ToUpper(s) == s
  {
  }

  /** Lower-casing twice is lower-casing once. */
  lemma ToLowerIdempotent(s: string)
    ensures ToLower(ToLower(s)) == ToLower(s)
  {
    ToLowerKeepsLowerCase(ToLower(s));
  }

  /** Upper-casing twice is upper-casing once. */
  lemma ToUpperIdempotent(s: string)
    ensures ToUpper(ToUpper(s)) == ToUpper(s)
  {
    ToUpperKeepsUpperCase(ToUpper(s));
  }

  /** Upper-casing ignores a prior lower-casing: "concluida" and "CONCLUIDA" upper-case alike. */
  lemma ToUpperIgnoresLowerCase(s: string)
    ensures ToUpper(ToLower(s)) == ToUpper(s)
  {
  }

  function DigitChar(d: nat): char
    requires d < 10
  {
    ('0' as int + d) as char
  }

  /** The number a string of decimal digits denotes, most significant digit first. */
  function DigitsValue(s: string): nat
  {
    if s == [] then 0
    else
      var d := s[|s| - 1] as int - '0' as int;
      DigitsValue(s[..|s| - 1]) * 10 + (if 0 <= d then d else 0)
  }

  /** Decimal rendering of a natural number, as Long.toString and template literals give it. */
  function NatToString(n: nat): (r: string)
    ensures r != []
    ensures forall k :: 0 <= k < |r| ==> '0' <= r[k] <= '9'
    ensures DigitsValue(r) == n
    ensures |r| > 1 ==> r[0] != '0'
  {
    if n < 10 then [DigitChar(n)]
    else
      var front := NatToString(n / 10);
      assert (front + [DigitChar(n % 10)])[..|front|] == front;
      front + [DigitChar(n % 10)]
  }

  /** Different numbers are rendered differently. */
  lemma NatToStringInjective(a: nat, b: nat)
    requires NatToString(a) == NatToString(b)
    ensures a == b
  {
  }

  function IntToString(n: int): (r: string)
    ensures r != []
    ensures n < 0 <==> r[0] == '-'
  {
    if n < 0 then "-" + NatToString(-n) else NatToString(n)
  }

  /** Different integers are rendered differently: the sign and then the digits tell them apart. */
  lemma IntToStringInjective(a: int, b: int)
    requires IntToString(a) == IntToString(b)
    ensures a == b
  {
    if a < 0 && b < 0 {
      assert NatToString(-a) == IntToString(a)[1..];
      assert NatToString(-b) == IntToString(b)[1..];
      NatToStringInjective(-a, -b);
    } else if a >= 0 && b >= 0 {
      NatToStringInjective(a, b);
    }
  }

  /** `String.join(sep, xs)` in Java and `xs.join(sep)` in JavaScript. */
  function Join(sep: string, xs: seq<string>): string
  {
    if xs == [] then ""
    else if |xs| == 1 then xs[0]
    else xs[0] + sep + Join(sep, xs[1..])
  }

  /** `List.toString` and `Arrays.toString` in Java: the elements between brackets, comma-separated. */
  function ListToString(xs: seq<string>): string
  {
    "[" + Join(", ", xs) + "]"
  }

  /** Lexicographic order on strings, character by character (the `<` of JavaScript on strings). */
  predicate StrLt(a: string, b: string)
    decreases |a|
  {
    if a == [] then b != []
    else if b == [] then false
    else if a[0] != b[0] then a[0] < b[0]
    else StrLt(a[1..], b[1..])
  }

  lemma {:induction false} StrLtIrreflexive(a: string)
    ensures !StrLt(a, a)
    decreases |a|
  {
    if a != [] { StrLtIrreflexive(a[1..]); }
  }

  lemma {:induction false} StrLtTransitive(a: string, b: string, c: string)
    requires StrLt(a, b) && StrLt(b, c)
    ensures StrLt(a, c)
    decreases |a|
  {
    if a != [] && b != [] && c != [] && a[0] == b[0] && b[0] == c[0] {
      StrLtTransitive(a[1..], b[1..], c[1..]);
    }
  }

  /** Any two strings are ordered one way, the other, or equal. */
  lemma {:induction false} StrLtTotal(a: string, b: string)
    ensures StrLt(a, b) || a == b || StrLt(b, a)
    decreases |a|
  {
    if a != [] && b != [] && a[0] == b[0] {
      StrLtTotal(a[1..], b[1..]);
      if a[1..] == b[1..] {
        assert a == [a[0]] + a[1..] && b == [b[0]] + b[1..];
      }
    }
  }
}
