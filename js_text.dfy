/**
 * The JavaScript string operations the core relies on, on strings of Unicode
 * scalar values: `trim`, `split` on one character, `split(".").pop()`,
 * decimal formatting of a non-negative integer (template literals) and
 * `parseInt` without a radix.
 */
module JsText {
  import opened Wrappers

  /** The characters `String.prototype.trim` removes: ECMAScript WhiteSpace and LineTerminator. */
  predicate IsWhite(c: char) {
    c == ' ' || ('\t' <= c <= '\r') || ('\U{00A0}' <= c && IsWideWhite(c))
  }

  /** The white space and line terminators outside ASCII. */
  predicate IsWideWhite(c: char) {
    || c == '\U{00A0}' || c == '\U{1680}' || ('\U{2000}' <= c <= '\U{200A}')
    || c == '\U{2028}' || c == '\U{2029}' || c == '\U{202F}' || c == '\U{205F}'
    || c == '\U{3000}' || c == '\U{FEFF}'
  }

  predicate AllWhite(s: string) {
    forall k :: 0 <= k < |s| ==> IsWhite(s[k])
  }

  /** How many white characters `s` starts with. */
  function LeadingWhite(s: string): (n: nat)
    ensures n <= |s|
    ensures forall k :: 0 <= k < n ==> IsWhite(s[k])
    ensures n < |s| ==> !IsWhite(s[n])
  {
    if s != [] && IsWhite(s[0]) then 1 + LeadingWhite(s[1..]) else 0
  }

  /** Where the white tail of `s` begins. */
  function TailStart(s: string): (n: nat)
    ensures n <= |s|
    ensures forall k :: n <= k < |s| ==> IsWhite(s[k])
    ensures n > 0 ==> !IsWhite(s[n - 1])
  {
    if s != [] && IsWhite(s[|s| - 1]) then TailStart(s[..|s| - 1]) else |s|
  }

  /** `s.trimStart()`. */
  function TrimStart(s: string): string {
    s[LeadingWhite(s)..]
  }

  /** `s.trimEnd()`. */
  function TrimEnd(s: string): string {
    s[..TailStart(s)]
  }

  /**
   * `s.trim()`: it removes white space at both ends and nothing else. The result
   * is the slice of `s` that begins at its first and ends at its last non-white
   * character, and it is empty exactly when `s` is all white space.
   */
  function Trim(s: string): (t: string)
    ensures LeadingWhite(s) + |t| <= |s| && t == s[LeadingWhite(s)..LeadingWhite(s) + |t|]
    ensures forall k :: 0 <= k < LeadingWhite(s) ==> IsWhite(s[k])
    ensures forall k :: LeadingWhite(s) + |t| <= k < |s| ==> IsWhite(s[k])
    ensures t == [] <==> AllWhite(s)
    ensures t != [] ==> !IsWhite(t[0]) && !IsWhite(t[|t| - 1])
  {
    var lead := LeadingWhite(s);
    var rest := s[lead..];
    var e := TailStart(rest);
    assert forall k :: lead + e <= k < |s| ==> s[k] == rest[k - lead];
    assert e == 0 ==> |rest| == 0;
    TrimEnd(TrimStart(s))
  }

  /** Trimming twice is trimming once. */
  lemma {:induction false} TrimIdempotent(s: string)
    ensures Trim(Trim(s)) == Trim(s)
  {
    var r := Trim(s);
    if r != [] {
      assert TrimStart(r) == r;
      assert TrimEnd(r) == r;
    }
  }

  /** The index of the first occurrence of `c` in `s`. */
  function IndexOf(s: string, c: char): (i: nat)
    requires c in s
    ensures i < |s| && s[i] == c && c !in s[..i]
  {
    if s[0] == c then 0 else 1 + IndexOf(s[1..], c)
  }

  /** `s.split(sep)` for a one-character separator. */
  function Split(s: string, sep: char): (parts: seq<string>)
    ensures |parts| >= 1
    ensures forall k :: 0 <= k < |parts| ==> sep !in parts[k]
    decreases |s|
  {
    if sep in s then
      var i := IndexOf(s, sep);
      [s[..i]] + Split(s[i + 1..], sep)
    else
      [s]
  }

  /** `parts.join(sep)`. */
  function Join(parts: seq<string>, sep: char): string {
    if parts == [] then []
    else if |parts| == 1 then parts[0]
    else parts[0] + [sep] + Join(parts[1..], sep)
  }

  /** Splitting loses nothing: joining the pieces with the separator gives the string back. */
  lemma {:induction false} JoinSplit(s: string, sep: char)
    ensures Join(Split(s, sep), sep) == s
    decreases |s|
  {
    if sep in s {
      var i := IndexOf(s, sep);
      var rest := Split(s[i + 1..], sep);
      JoinSplit(s[i + 1..], sep);
      JoinCons(s[..i], rest, sep);
      assert s == s[..i] + [sep] + s[i + 1..];
    }
  }

  lemma {:induction false} JoinCons(first: string, rest: seq<string>, sep: char)
    requires |rest| >= 1
    ensures Join([first] + rest, sep) == first + [sep] + Join(rest, sep)
  {
    assert ([first] + rest)[1..] == rest;
  }

  /** `name.split(".").pop()`: the text after the last `.`, or the whole name when it has none. */
  function AfterLast(s: string, c: char): (r: string)
    ensures c !in r
    ensures c !in s ==> r == s
    ensures c in s ==> |r| < |s| && s[|s| - |r| - 1] == c && r == s[|s| - |r|..]
    decreases |s|
  {
    if s == [] then []
    else if s[|s| - 1] == c then []
    else AfterLast(s[..|s| - 1], c) + [s[|s| - 1]]
  }

  /** Whatever precedes the last `c`, the text after it is what `AfterLast` returns. */
  lemma {:induction false} AfterLastSuffix(s: string, c: char, t: string)
    requires c !in t
    ensures AfterLast(s + [c] + t, c) == t
  {
    var w := s + [c] + t;
    var r := AfterLast(w, c);
    assert w[|s|] == c;
    assert w[|s| + 1..] == t;
  }

  /** When `a` holds no `c`, the first `c` of `a + [c] + b` is the one right after `a`. */
  lemma {:induction false} IndexOfAfter(a: string, c: char, b: string)
    requires c !in a
    ensures c in a + [c] + b && IndexOf(a + [c] + b, c) == |a|
  {
    var w := a + [c] + b;
    assert w[|a|] == c;
  }

  /** The decimal digit for `d`. */
  function DigitChar(d: nat): (c: char)
    requires d < 10
    ensures '0' <= c <= '9'
  {
    (d + '0' as int) as char
  }

  /** The decimal text of `n`, as `${n}` prints a non-negative integer. */
  function NatToString(n: nat): (s: string)
    ensures |s| >= 1
    ensures forall k :: 0 <= k < |s| ==> '0' <= s[k] <= '9'
    decreases n
  {
    if n < 10 then [DigitChar(n)] else NatToString(n / 10) + [DigitChar(n % 10)]
  }

  /** Different numbers print differently. */
  lemma {:induction false} NatToStringInjective(a: nat, b: nat)
    requires NatToString(a) == NatToString(b)
    ensures a == b
    decreases a
  {
    var s := NatToString(a);
    if a < 10 && b < 10 {
    } else if a < 10 || b < 10 {
    } else {
      assert NatToString(a / 10) == s[..|s| - 1] == NatToString(b / 10);
      NatToStringInjective(a / 10, b / 10);
      assert DigitChar(a % 10) == s[|s| - 1] == DigitChar(b % 10);
    }
  }

  /** The value of a character as a digit in bases up to 36 (36 when it is none). */
  function DigitValue(c: char): (v: nat)
    ensures v <= 36
    ensures '0' <= c <= '9' ==> v == c as int - '0' as int
  {
    if '0' <= c <= '9' then c as int - '0' as int
    else if 'a' <= c <= 'z' then c as int - 'a' as int + 10
    else if 'A' <= c <= 'Z' then c as int - 'A' as int + 10
    else 36
  }

  /** The longest prefix of `s` made of digits of base `radix`. */
  function DigitPrefix(s: string, radix: nat): (ds: string)
    ensures |ds| <= |s| && ds == s[..|ds|]
    ensures forall k :: 0 <= k < |ds| ==> DigitValue(ds[k]) < radix
    ensures |ds| < |s| ==> DigitValue(s[|ds|]) >= radix
  {
    if s != [] && DigitValue(s[0]) < radix then [s[0]] + DigitPrefix(s[1..], radix) else []
  }

  /** The number a string of digits denotes in base `radix`. */
  function DigitsValue(ds: string, radix: nat): nat {
    if ds == [] then 0
    else DigitsValue(ds[..|ds| - 1], radix) * radix + DigitValue(ds[|ds| - 1])
  }

  /**
   * `parseInt(s)` without a radix: skip leading white space, take an optional
   * sign, read base 16 after a `0x`/`0X` prefix and base 10 otherwise, and stop
   * at the first character that is not a digit; `None` stands for NaN (no digit).
   */
  function ParseInt(s: string): (r: Option<int>)
    ensures AllWhite(s) ==> r.None?
    ensures r.Some? && r.value < 0 ==> TrimStart(s) != [] && TrimStart(s)[0] == '-'
  {
    var t := TrimStart(s);
    var negative := t != [] && t[0] == '-';
    var u := if t != [] && (t[0] == '-' || t[0] == '+') then t[1..] else t;
    match ParseDigits(u)
    case None => None
    case Some(magnitude) =>
      var value: int := if negative then -(magnitude as int) else magnitude;
      Some(value)
  }

  /** The unsigned part: base 16 after `0x`/`0X`, base 10 otherwise, up to the first non-digit. */
  function ParseDigits(u: string): Option<nat> {
    var hex := |u| >= 2 && u[0] == '0' && (u[1] == 'x' || u[1] == 'X');
    var radix := if hex then 16 else 10;
    var ds := DigitPrefix(if hex then u[2..] else u, radix);
    if ds == [] then None else Some(DigitsValue(ds, radix))
  }

  lemma {:induction false} DecimalValue(n: nat)
    ensures DigitsValue(NatToString(n), 10) == n
    decreases n
  {
    if n >= 10 {
      var s := NatToString(n);
      assert s[..|s| - 1] == NatToString(n / 10);
      DecimalValue(n / 10);
    }
  }

  lemma {:induction false} AllDigitsPrefix(s: string)
    requires forall k :: 0 <= k < |s| ==> '0' <= s[k] <= '9'
    ensures DigitPrefix(s, 10) == s
  {
    if s != [] {
      AllDigitsPrefix(s[1..]);
    }
  }

  /** A string of decimal digits reads as its decimal value. */
  lemma {:induction false} DecimalDigits(s: string)
    requires |s| >= 1 && forall k :: 0 <= k < |s| ==> '0' <= s[k] <= '9'
    ensures ParseDigits(s) == Some(DigitsValue(s, 10))
  {
    assert !(|s| >= 2 && s[0] == '0' && (s[1] == 'x' || s[1] == 'X'));
    AllDigitsPrefix(s);
  }

  /** A string that starts with a non-white character has nothing to trim at its start. */
  lemma {:induction false} NoLeadingWhite(s: string)
    requires |s| >= 1 && !IsWhite(s[0])
    ensures TrimStart(s) == s
  {
  }

  /** A number printed in decimal parses back to itself. */
  lemma {:induction false} ParseIntDecimal(n: nat)
    ensures ParseInt(NatToString(n)) == Some(n)
  {
    var s := NatToString(n);
    NoLeadingWhite(s);
    assert !(s[0] == '-' || s[0] == '+');
    DecimalDigits(s);
    DecimalValue(n);
  }
}
