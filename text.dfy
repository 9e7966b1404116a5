/** Character and string facts shared by the validators: UTF-16 lengths, the two runtimes'
  * notions of whitespace, JavaScript's `trim`, suffix tests and ASCII upper-casing. */
module Text {

  /** What `String.prototype.trim` strips: WhiteSpace and LineTerminator of ECMAScript. */
  predicate IsJsSpace(c: char)
  {
    var n := c as int;
    (0x09 <= n <= 0x0D) || n == 0x20 || n == 0xA0 || n == 0x1680 || (0x2000 <= n <= 0x200A) ||
    n == 0x2028 || n == 0x2029 || n == 0x202F || n == 0x205F || n == 0x3000 || n == 0xFEFF
  }

  /** Java's `Character.isWhitespace`, which `String.isBlank` uses: no-break spaces do not count. */
  predicate IsJavaSpace(c: char)
  {
    var n := c as int;
    (0x09 <= n <= 0x0D) || (0x1C <= n <= 0x1F) || n == 0x20 || n == 0x1680 ||
    (0x2000 <= n <= 0x2006) || (0x2008 <= n <= 0x200A) ||
    n == 0x2028 || n == 0x2029 || n == 0x205F || n == 0x3000
  }

  /** The length JavaScript's `.length` and Java's `String.length()` report: code points above
    * U+FFFF are two UTF-16 units. */
  function Utf16Length(s: string): (n: nat)
    ensures |s| <= n <= 2 * |s|
    ensures n == 0 <==> s == []
  {
    if s == [] then 0 else (if s[0] as int > 0xFFFF then 2 else 1) + Utf16Length(s[1..])
  }

  /** `s` without its leading JavaScript whitespace. */
  function TrimStart(s: string): string
  {
    if s != [] && IsJsSpace(s[0]) then TrimStart(s[1..]) else s
  }

  /** `s` without its trailing JavaScript whitespace. */
  function TrimEnd(s: string): string
  {
    if s != [] && IsJsSpace(s[|s| - 1]) then TrimEnd(s[..|s| - 1]) else s
  }

  /** TrimStart drops a prefix of whitespace and stops at the first other character. */
  lemma {:induction false} TrimStartShape(s: string)
    ensures |TrimStart(s)| <= |s| && TrimStart(s) == s[|s| - |TrimStart(s)|..]
    ensures TrimStart(s) != [] ==> !IsJsSpace(TrimStart(s)[0])
    ensures forall i :: 0 <= i < |s| - |TrimStart(s)| ==> IsJsSpace(s[i])
  {
    if s != [] && IsJsSpace(s[0]) {
      var r := s[1..];
      TrimStartShape(r);
      var t := TrimStart(r);
      assert TrimStart(s) == t;
      assert r[|r| - |t|..] == s[|s| - |t|..];
      forall i | 0 <= i < |s| - |t|
        ensures IsJsSpace(s[i])
      {
        if i > 0 {
          assert s[i] == r[i - 1];
        }
      }
    }
  }

  /** TrimEnd drops a suffix of whitespace and stops at the last other character. */
  lemma {:induction false} TrimEndShape(s: string)
    ensures |TrimEnd(s)| <= |s| && TrimEnd(s) == s[..|TrimEnd(s)|]
    ensures TrimEnd(s) != [] ==> !IsJsSpace(TrimEnd(s)[|TrimEnd(s)| - 1])
    ensures forall i :: |TrimEnd(s)| <= i < |s| ==> IsJsSpace(s[i])
  {
    if s != [] && IsJsSpace(s[|s| - 1]) {
      var r := s[..|s| - 1];
      TrimEndShape(r);
      var t := TrimEnd(r);
      assert TrimEnd(s) == t;
      assert r[..|t|] == s[..|t|];
      forall i | |t| <= i < |s|
        ensures IsJsSpace(s[i])
      {
        if i < |s| - 1 {
          assert s[i] == r[i];
        }
      }
    }
  }

  /** JavaScript's `s.trim()`. */
  function JsTrim(s: string): string
  {
    TrimEnd(TrimStart(s))
  }

  /** `s.trim()` is empty exactly when every character of `s` is JavaScript whitespace. */
  lemma {:induction false} JsTrimEmpty(s: string)
    ensures JsTrim(s) == [] <==> forall i :: 0 <= i < |s| ==> IsJsSpace(s[i])
  {
    var a := TrimStart(s);
    TrimStartShape(s);
    TrimEndShape(a);
    if JsTrim(s) == [] {
      assert a == [];
    } else {
      var t := JsTrim(s);
      assert !IsJsSpace(t[|t| - 1]) && t[|t| - 1] == a[|t| - 1];
      assert a[|t| - 1] == s[|s| - |a| + |t| - 1];
    }
  }

  /** Java's `String.isBlank()`: empty or only Java whitespace. */
  predicate IsBlank(s: string)
  {
    forall i :: 0 <= i < |s| ==> IsJavaSpace(s[i])
  }

  /** Java's `s.endsWith(suffix)` and JavaScript's, compared code unit by code unit. */
  predicate EndsWith(s: string, suffix: string)
  {
    |suffix| <= |s| && s[|s| - |suffix|..] == suffix
  }

  predicate IsAsciiLetter(c: char)
  {
    'a' <= c <= 'z' || 'A' <= c <= 'Z'
  }

  /** A key that is a single ASCII letter: `key.length === 1` and it matches `/[a-zA-Z]/`. */
  predicate IsLetterKey(key: string)
  {
    |key| == 1 && IsAsciiLetter(key[0])
  }

  /** `toUpperCase` on an ASCII letter. */
  function UpperAscii(c: char): (u: char)
    requires IsAsciiLetter(c)
    ensures 'A' <= u <= 'Z'
    ensures 'A' <= c <= 'Z' ==> u == c
    ensures 'a' <= c <= 'z' ==> u as int == c as int - 32
  {
    if 'a' <= c <= 'z' then (c as int - 32) as char else c
  }

  /** The decimal digits of a natural number. */
  function NatToString(n: nat): (s: string)
    ensures |s| >= 1 && forall k :: 0 <= k < |s| ==> '0' <= s[k] <= '9'
    decreases n
  {
    var d := ['0' + (n % 10) as char];
    if n < 10 then d else NatToString(n / 10) + d
  }

  /** A template-literal `${n}` for an integer. */
  function IntToString(n: int): string
  {
    if n < 0 then "-" + NatToString(-n) else NatToString(n)
  }

  /** A number prints as one digit exactly when it is below ten. */
  lemma NatToStringOneDigit(n: nat)
    ensures |NatToString(n)| == 1 <==> n < 10
  {
  }

  /** Only a negative number prints with a leading sign. */
  lemma IntToStringSign(n: int)
    ensures |IntToString(n)| >= 1
    ensures IntToString(n)[0] == '-' <==> n < 0
  {
    if n >= 0 {
      assert '0' <= NatToString(n)[0] <= '9';
    }
  }

  /** Different numbers print differently. */
  lemma {:induction false} NatToStringInjective(a: nat, b: nat)
    requires NatToString(a) == NatToString(b)
    ensures a == b
    decreases a
  {
    var s := NatToString(a);
    assert s[|s| - 1] == '0' + (a % 10) as char;
    assert s[|s| - 1] == '0' + (b % 10) as char;
    NatToStringOneDigit(a);
    NatToStringOneDigit(b);
    if a >= 10 {
      var pa, pb := NatToString(a / 10), NatToString(b / 10);
      assert pa == s[..|s| - 1];
      assert pb == s[..|s| - 1];
      NatToStringInjective(a / 10, b / 10);
    }
  }

  /** Different integers print differently. */
  lemma IntToStringInjective(a: int, b: int)
    requires IntToString(a) == IntToString(b)
    ensures a == b
  {
    IntToStringSign(a);
    IntToStringSign(b);
    if a < 0 {
      assert NatToString(-a) == IntToString(a)[1..];
      assert NatToString(-b) == IntToString(b)[1..];
      NatToStringInjective(-a, -b);
    } else {
      NatToStringInjective(a, b);
    }
  }
}
