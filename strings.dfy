/** String helpers with the semantics of the PHP and JavaScript built-ins the core uses. */
module Strings {
  import opened Wrappers

  /** The characters PHP's `trim` strips by default: space, tab, newline, carriage return, NUL, vertical tab. */
  predicate IsTrimSpace(c: char) {
    c == ' ' || c == '\t' || c == '\n' || c == '\r' || c == '\0' || c == '\U{000B}'
  }

  predicate AllTrimSpace(s: string) {
    forall i :: 0 <= i < |s| ==> IsTrimSpace(s[i])
  }

  /** `ltrim`: drops the leading whitespace. */
  function TrimLeft(s: string): (r: string)
    ensures |r| <= |s| && r == s[|s| - |r|..]
    ensures AllTrimSpace(s[..|s| - |r|])
    ensures r == [] || !IsTrimSpace(r[0])
  {
    if s != [] && IsTrimSpace(s[0]) then TrimLeft(s[1..]) else s
  }

  /** `rtrim`: drops the trailing whitespace. */
  function TrimRight(s: string): (r: string)
    ensures |r| <= |s| && r == s[..|r|]
    ensures AllTrimSpace(s[|r|..])
    ensures r == [] || !IsTrimSpace(r[|r| - 1])
  {
    if s != [] && IsTrimSpace(s[|s| - 1]) then TrimRight(s[..|s| - 1]) else s
  }

  /** PHP's `trim`: the result is `s` without its leading and trailing whitespace. */
  function Trim(s: string): (r: string)
    ensures r == [] || (!IsTrimSpace(r[0]) && !IsTrimSpace(r[|r| - 1]))
    ensures exists i, j :: 0 <= i <= j <= |s| && r == s[i..j] && AllTrimSpace(s[..i]) && AllTrimSpace(s[j..])
  {
    var l := TrimLeft(s);
    var r := TrimRight(l);
    TrimWitness(s, l, r);
    r
  }

  lemma TrimWitness(s: string, l: string, r: string)
    requires |l| <= |s| && l == s[|s| - |l|..] && AllTrimSpace(s[..|s| - |l|])
    requires |r| <= |l| && r == l[..|r|] && AllTrimSpace(l[|r|..])
    ensures exists i, j :: 0 <= i <= j <= |s| && r == s[i..j] && AllTrimSpace(s[..i]) && AllTrimSpace(s[j..])
  {
    var i := |s| - |l|;
    var j := i + |r|;
    assert s[j..] == l[|r|..];
    assert r == s[i..j];
  }

  /** `s` with every `trim` whitespace character removed, wherever it stands. */
  function Unspaced(s: string): (r: string)
    ensures |r| <= |s|
    ensures forall k :: 0 <= k < |r| ==> !IsTrimSpace(r[k])
    decreases |s|
  {
    if s == [] then [] else (if IsTrimSpace(s[0]) then [] else [s[0]]) + Unspaced(s[1..])
  }

  lemma {:induction false} UnspacedConcat(a: string, b: string)
    ensures Unspaced(a + b) == Unspaced(a) + Unspaced(b)
    decreases |a|
  {
    if a == [] {
      assert a + b == b;
    } else {
      assert (a + b)[0] == a[0] && (a + b)[1..] == a[1..] + b;
      UnspacedConcat(a[1..], b);
    }
  }

  lemma {:induction false} UnspacedAllSpace(s: string)
    requires AllTrimSpace(s)
    ensures Unspaced(s) == []
    decreases |s|
  {
    if s != [] {
      UnspacedAllSpace(s[1..]);
    }
  }

  /** Trimming only removes whitespace. */
  lemma UnspacedTrim(s: string)
    ensures Unspaced(Trim(s)) == Unspaced(s)
  {
    var i, j :| 0 <= i <= j <= |s| && Trim(s) == s[i..j] && AllTrimSpace(s[..i]) && AllTrimSpace(s[j..]);
    assert s == s[..i] + s[i..j] + s[j..];
    UnspacedConcat(s[..i] + s[i..j], s[j..]);
    UnspacedConcat(s[..i], s[i..j]);
    UnspacedAllSpace(s[..i]);
    UnspacedAllSpace(s[j..]);
  }

  /** The characters JavaScript's `String.prototype.trim` strips: the WhiteSpace and LineTerminator code points. */
  predicate IsJsSpace(c: char) {
    c == '\t' || c == '\n' || c == '\U{000B}' || c == '\U{000C}' || c == '\r' || c == ' '
    || c == '\U{00A0}' || c == '\U{1680}' || ('\U{2000}' <= c <= '\U{200A}')
    || c == '\U{2028}' || c == '\U{2029}' || c == '\U{202F}' || c == '\U{205F}'
    || c == '\U{3000}' || c == '\U{FEFF}'
  }

  predicate AllJsSpace(s: string) {
    forall i :: 0 <= i < |s| ==> IsJsSpace(s[i])
  }

  /** `trimStart`: drops the leading whitespace. */
  function JsTrimStart(s: string): (r: string)
    ensures |r| <= |s| && r == s[|s| - |r|..]
    ensures AllJsSpace(s[..|s| - |r|])
    ensures r == [] || !IsJsSpace(r[0])
  {
    if s != [] && IsJsSpace(s[0]) then JsTrimStart(s[1..]) else s
  }

  /** `trimEnd`: drops the trailing whitespace. */
  function JsTrimEnd(s: string): (r: string)
    ensures |r| <= |s| && r == s[..|r|]
    ensures AllJsSpace(s[|r|..])
    ensures r == [] || !IsJsSpace(r[|r| - 1])
  {
    if s != [] && IsJsSpace(s[|s| - 1]) then JsTrimEnd(s[..|s| - 1]) else s
  }

  /** JavaScript's `s.trim()`: empty exactly when `s` is all whitespace, and otherwise starting and ending with a non-space. */
  function JsTrim(s: string): (r: string)
    ensures r == [] <==> AllJsSpace(s)
    ensures r == [] || (!IsJsSpace(r[0]) && !IsJsSpace(r[|r| - 1]))
  {
    var l := JsTrimStart(s);
    var r := JsTrimEnd(l);
    assert r == [] ==> s == s[..|s| - |l|] + l[|r|..];
    r
  }

  /** PHP truthiness of a string: only "" and "0" are false. */
  predicate PhpTruthy(s: string) {
    s != "" && s != "0"
  }

  /** `str_starts_with`. */
  predicate StartsWith(s: string, prefix: string) {
    |prefix| <= |s| && s[..|prefix|] == prefix
  }

  /** `strpos($s, c)` for one character: the first index of `c`, if any. */
  function IndexOf(s: string, c: char): (r: Option<nat>)
    ensures r.None? <==> c !in s
    ensures r.Some? ==> r.value < |s| && s[r.value] == c && c !in s[..r.value]
  {
    if s == [] then None
    else if s[0] == c then Some(0)
    else match IndexOf(s[1..], c)
      case None => None
      case Some(k) => assert s[..k + 1] == [s[0]] + s[1..][..k]; Some(k + 1)
  }

  /** `strrpos($s, c)` for one character: the last index of `c`, if any. */
  function LastIndexOf(s: string, c: char): (r: Option<nat>)
    ensures r.None? <==> c !in s
    ensures r.Some? ==> r.value < |s| && s[r.value] == c && c !in s[r.value + 1..]
  {
    if s == [] then None
    else if s[|s| - 1] == c then Some(|s| - 1)
    else
      var r := LastIndexOf(s[..|s| - 1], c);
      assert r.Some? ==> s[r.value + 1..] == s[..|s| - 1][r.value + 1..] + [s[|s| - 1]];
      assert c in s[..|s| - 1] ==> c in s;
      assert s == s[..|s| - 1] + [s[|s| - 1]];
      r
  }

  /** The decimal digit for 0..9. */
  function DigitChar(d: nat): char
    requires d < 10
  {
    "0123456789"[d]
  }

  /** `String(n)` / PHP interpolation of a natural number, in decimal without leading zeros. */
  function NatToString(n: nat): (r: string)
    ensures |r| >= 1
    ensures forall i :: 0 <= i < |r| ==> '0' <= r[i] <= '9'
    ensures r[0] == '0' ==> n == 0
    decreases n
  {
    if n < 10 then [DigitChar(n)] else NatToString(n / 10) + [DigitChar(n % 10)]
  }

  /** `String(i)` for an integer: a minus sign before the digits of a negative number. */
  function IntToString(i: int): (r: string)
    ensures |r| >= 1
    ensures (r[0] == '-') <==> i < 0
    ensures forall k :: 0 < k < |r| ==> '0' <= r[k] <= '9'
  {
    if i < 0 then "-" + NatToString(-i) else NatToString(i)
  }

  predicate AllDigits(s: string) {
    forall i :: 0 <= i < |s| ==> '0' <= s[i] <= '9'
  }

  /** The value of a string of decimal digits, the inverse of NatToString. */
  function ParseDigits(s: string): nat
    requires forall i :: 0 <= i < |s| ==> '0' <= s[i] <= '9'
  {
    if s == [] then 0 else ParseDigits(s[..|s| - 1]) * 10 + (s[|s| - 1] as int - '0' as int)
  }

  lemma {:induction false} ParseNatToString(n: nat)
    ensures ParseDigits(NatToString(n)) == n
    decreases n
  {
    var s := NatToString(n);
    if n >= 10 {
      var init, d := NatToString(n / 10), n % 10;
      assert s == init + [DigitChar(d)];
      assert s[..|s| - 1] == init;
      ParseNatToString(n / 10);
      DigitValue(d);
      assert ParseDigits(s) == ParseDigits(init) * 10 + d;
    } else {
      DigitValue(n);
      assert s[..0] == [];
    }
  }

  lemma DigitValue(d: nat)
    requires d < 10
    ensures DigitChar(d) as int - '0' as int == d
  {
  }

  /** NatToString is injective: distinct numbers print differently. */
  lemma NatToStringInjective(m: nat, n: nat)
    requires NatToString(m) == NatToString(n)
    ensures m == n
  {
    ParseNatToString(m);
    ParseNatToString(n);
  }

  /** `s.padStart(2, '0')`. */
  function PadStart2(s: string): (r: string)
    ensures |r| == if |s| < 2 then 2 else |s|
    ensures r[|r| - |s|..] == s
    ensures forall i :: 0 <= i < |r| - |s| ==> r[i] == '0'
  {
    if |s| == 0 then "00" else if |s| == 1 then "0" + s else s
  }

  /** The number of bytes the UTF-8 encoding of `c` takes. */
  function Utf8Width(c: char): nat {
    if c as int < 0x80 then 1 else if c as int < 0x800 then 2 else if c as int < 0x10000 then 3 else 4
  }

  /** PHP's `strlen` of the UTF-8 encoding of `s`. */
  function Utf8Length(s: string): (r: nat)
    ensures |s| <= r <= 4 * |s|
  {
    if s == [] then 0 else Utf8Width(s[0]) + Utf8Length(s[1..])
  }
}
