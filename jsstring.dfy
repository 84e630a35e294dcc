/**
  The JavaScript string operations that the control-mode client relies on,
  with the semantics of the ECMAScript built-ins: `startsWith`, `indexOf` of
  one character, `slice(n)`, `split` on a one-character separator, `trim`,
  and the global `parseInt` with no radix argument. A JavaScript value that
  may be `undefined` (an array index past the end) is an `Option<string>`.
 */
module JsString {

  datatype Option<+T> = None | Some(value: T)

  /** `s.startsWith(prefix)` */
  predicate StartsWith(s: string, prefix: string)
  {
    |prefix| <= |s| && s[..|prefix|] == prefix
  }

  /** `s.slice(n)` for a non-negative `n`: what remains after the first `n` characters. */
  function SliceFrom(s: string, n: nat): (r: string)
    ensures n <= |s| ==> s == s[..n] + r
    ensures |s| <= n ==> r == ""
  {
    if n <= |s| then s[n..] else ""
  }

  /** `s.indexOf(c)`: the first position of `c`, `None` standing for -1. */
  function IndexOf(s: string, c: char): (r: Option<nat>)
    ensures r.None? <==> c !in s
    ensures r.Some? ==> r.value < |s| && s[r.value] == c && c !in s[..r.value]
  {
    if |s| == 0 then None
    else if s[0] == c then Some(0)
    else match IndexOf(s[1..], c)
      case None => None
      case Some(i) => assert s[1..][..i] == s[1..i + 1]; Some(i + 1)
  }

  /** The inverse of `split`: the parts with `sep` between each two. */
  function JoinWith(parts: seq<string>, sep: char): string
  {
    if |parts| == 0 then ""
    else if |parts| == 1 then parts[0]
    else parts[0] + [sep] + JoinWith(parts[1..], sep)
  }

  /** `s.split(sep)` for a one-character separator: the text between separators, never empty. */
  function Split(s: string, sep: char): (r: seq<string>)
    ensures |r| >= 1
    ensures forall i :: 0 <= i < |r| ==> sep !in r[i]
    ensures JoinWith(r, sep) == s
    decreases |s|
  {
    match IndexOf(s, sep)
    case None => [s]
    case Some(i) =>
      var rest := Split(s[i + 1..], sep);
      assert s == s[..i] + [sep] + s[i + 1..];
      [s[..i]] + rest
  }

  lemma {:induction false} SplitJoin(parts: seq<string>, sep: char)
    requires |parts| >= 1
    requires forall i :: 0 <= i < |parts| ==> sep !in parts[i]
    ensures Split(JoinWith(parts, sep), sep) == parts
  {
    if |parts| == 1 {
      assert IndexOf(parts[0], sep).None?;
    } else {
      var s := JoinWith(parts, sep);
      assert s == parts[0] + [sep] + JoinWith(parts[1..], sep);
      assert IndexOf(s, sep) == Some(|parts[0]|) by {
        assert s[|parts[0]|] == sep;
        assert s[..|parts[0]|] == parts[0];
      }
      assert s[|parts[0]| + 1..] == JoinWith(parts[1..], sep);
      SplitJoin(parts[1..], sep);
    }
  }

  /** A character in none of the parts, other than the separator, is not in their join. */
  lemma {:induction false} JoinWithout(parts: seq<string>, sep: char, c: char)
    requires c != sep
    requires forall i :: 0 <= i < |parts| ==> c !in parts[i]
    ensures c !in JoinWith(parts, sep)
  {
    if |parts| >= 2 {
      JoinWithout(parts[1..], sep, c);
      assert c !in parts[0] + [sep];
    }
  }

  /** The element at index `i` of an array, `undefined` past its end. */
  function Field(xs: seq<string>, i: nat): (r: Option<string>)
    ensures r.Some? <==> i < |xs|
    ensures i < |xs| ==> r.value == xs[i]
  {
    if i < |xs| then Some(xs[i]) else None
  }

  /**
    `String(v)`: the text of a possibly `undefined` value. A present value
    is its own text; the text of `undefined` reads as NaN under `parseInt`.
   */
  function ToText(v: Option<string>): (r: string)
    ensures v.Some? ==> r == v.value
    ensures v.None? ==> ParseInt(r) == None
  {
    match v
    case None => UndefinedIsNaN(); "undefined"
    case Some(s) => s
  }

  /**
    The characters `trim` removes and `parseInt` skips: the ECMAScript
    WhiteSpace and LineTerminator code points.
   */
  predicate IsJsSpace(c: char)
  {
    c == '\t' || c == '\n' || c == '\U{000B}' || c == '\U{000C}' || c == '\r' || c == ' '
    || c == '\U{00A0}' || c == '\U{1680}' || ('\U{2000}' <= c <= '\U{200A}')
    || c == '\U{2028}' || c == '\U{2029}' || c == '\U{202F}' || c == '\U{205F}'
    || c == '\U{3000}' || c == '\U{FEFF}'
  }

  /** `s.trimStart()` */
  function TrimStart(s: string): (r: string)
    ensures |r| <= |s| && r == s[|s| - |r|..]
    ensures forall k :: 0 <= k < |s| - |r| ==> IsJsSpace(s[k])
    ensures r == "" || !IsJsSpace(r[0])
  {
    if |s| > 0 && IsJsSpace(s[0]) then
      TrimStart(s[1..])
    else s
  }

  lemma TrimStartKeeps(s: string)
    requires s == "" || !IsJsSpace(s[0])
    ensures TrimStart(s) == s
  {
  }

  /** `s.trimEnd()` */
  function TrimEnd(s: string): (r: string)
    ensures |r| <= |s| && r == s[..|r|]
    ensures forall k :: |r| <= k < |s| ==> IsJsSpace(s[k])
    ensures r == "" || !IsJsSpace(r[|r| - 1])
  {
    if |s| > 0 && IsJsSpace(s[|s| - 1]) then
      var r := TrimEnd(s[..|s| - 1]);
      assert s[..|s| - 1][..|r|] == s[..|r|];
      assert forall k :: |r| <= k < |s| - 1 ==> s[..|s| - 1][k] == s[k];
      r
    else s
  }

  /** `s.trim()`: the slice of `s` left when the whitespace at both ends is cut. */
  function Trim(s: string): (r: string)
    ensures var i := |s| - |TrimStart(s)|;
      && i + |r| <= |s| && r == s[i..i + |r|]
      && (forall k :: 0 <= k < i ==> IsJsSpace(s[k]))
      && (forall k :: i + |r| <= k < |s| ==> IsJsSpace(s[k]))
    ensures r == "" || (!IsJsSpace(r[0]) && !IsJsSpace(r[|r| - 1]))
  {
    var t := TrimStart(s);
    var r := TrimEnd(t);
    SliceOfSuffix(s, t, r);
    r
  }

  /** A prefix `r` of a suffix `t` of `s` is a slice of `s`; what `s` has beyond is what `t` has. */
  lemma SliceOfSuffix(s: string, t: string, r: string)
    requires |t| <= |s| && t == s[|s| - |t|..]
    requires |r| <= |t| && r == t[..|r|]
    requires forall k :: |r| <= k < |t| ==> IsJsSpace(t[k])
    ensures var i := |s| - |t|;
      r == s[i..i + |r|] && forall k :: i + |r| <= k < |s| ==> IsJsSpace(s[k])
  {
    var i := |s| - |t|;
    forall k | i + |r| <= k < |s| ensures IsJsSpace(s[k]) {
      assert s[k] == t[k - i];
    }
  }

  /** `trim` cuts exactly the whitespace around text that neither starts nor ends with it. */
  lemma TrimAround(pre: string, s: string, post: string)
    requires forall k :: 0 <= k < |pre| ==> IsJsSpace(pre[k])
    requires forall k :: 0 <= k < |post| ==> IsJsSpace(post[k])
    requires s == "" || (!IsJsSpace(s[0]) && !IsJsSpace(s[|s| - 1]))
    ensures Trim(pre + s + post) == s
  {
    var x := pre + s + post;
    var r := Trim(x);
    var i := |x| - |TrimStart(x)|;
    assert forall k :: 0 <= k < |pre| ==> IsJsSpace(x[k]) by {
      forall k | 0 <= k < |pre| ensures x[k] == pre[k] { }
    }
    assert forall k :: |pre| + |s| <= k < |x| ==> IsJsSpace(x[k]) by {
      forall k | |pre| + |s| <= k < |x| ensures x[k] == post[k - |pre| - |s|] { }
    }
    if s != "" {
      assert x[|pre|] == s[0];
      assert x[|pre| + |s| - 1] == s[|s| - 1];
      assert i == |pre|;
      assert x[|pre|..|pre| + |s|] == s;
    }
  }

  lemma TrimKeepsTrimmed(s: string)
    requires s == "" || (!IsJsSpace(s[0]) && !IsJsSpace(s[|s| - 1]))
    ensures Trim(s) == s
  {
  }

  lemma TrimIdempotent(s: string)
    ensures Trim(Trim(s)) == Trim(s)
  {
    TrimKeepsTrimmed(Trim(s));
  }

  predicate IsDecimalDigit(c: char)
  {
    '0' <= c <= '9'
  }

  /** A digit of radix 10 or 16, in either case for the letters. */
  predicate IsDigitOf(c: char, hex: bool)
  {
    IsDecimalDigit(c) || (hex && (('a' <= c <= 'f') || ('A' <= c <= 'F')))
  }

  function DigitValue(c: char): nat
  {
    if IsDecimalDigit(c) then c as nat - '0' as nat
    else if 'a' <= c <= 'f' then c as nat - 'a' as nat + 10
    else if 'A' <= c <= 'F' then c as nat - 'A' as nat + 10
    else 0
  }

  /** The length of the longest prefix of `s` made of digits. */
  function DigitRun(s: string, hex: bool): (n: nat)
    ensures n <= |s|
    ensures forall k :: 0 <= k < n ==> IsDigitOf(s[k], hex)
    ensures n < |s| ==> !IsDigitOf(s[n], hex)
  {
    if |s| > 0 && IsDigitOf(s[0], hex) then 1 + DigitRun(s[1..], hex) else 0
  }

  /** The value of a string of digits, most significant first. */
  function DigitsValue(ds: string, hex: bool): nat
  {
    if |ds| == 0 then 0
    else DigitsValue(ds[..|ds| - 1], hex) * (if hex then 16 else 10) + DigitValue(ds[|ds| - 1])
  }

  /**
    `parseInt(s)` with no radix: leading whitespace is skipped, one `+` or `-`
    is taken as the sign, a `0x`/`0X` prefix selects radix 16, and the longest
    run of digits that follows is the value; `None` stands for NaN, the result
    when that run is empty.
   */
  function ParseInt(s: string): (r: Option<int>)
  {
    var t := TrimStart(s);
    if |t| > 0 && t[0] == '-' then
      match ParseUnsigned(t[1..])
      case None => None
      case Some(v) => Some(-v)
    else if |t| > 0 && t[0] == '+' then ParseUnsigned(t[1..])
    else ParseUnsigned(t)
  }

  /** The digits after the sign, in radix 16 after a `0x` prefix and 10 otherwise. */
  function ParseUnsigned(u: string): Option<int>
  {
    if |u| >= 2 && u[0] == '0' && (u[1] == 'x' || u[1] == 'X') then ParseRun(u[2..], true)
    else ParseRun(u, false)
  }

  /** The value of the digits at the front of `v`, `None` when there are none. */
  function ParseRun(v: string, hex: bool): Option<int>
  {
    var n := DigitRun(v, hex);
    if n == 0 then None else Some(DigitsValue(v[..n], hex))
  }

  /** The decimal text of a natural number, as `String(n)` gives it. */
  function NatToDecimal(n: nat): (d: string)
    ensures |d| >= 1
    ensures forall k :: 0 <= k < |d| ==> IsDecimalDigit(d[k])
    ensures n > 0 ==> d[0] != '0'
  {
    var last := ['0' + (n % 10) as char];
    if n < 10 then last else NatToDecimal(n / 10) + last
  }

  lemma {:induction false} DecimalValue(n: nat)
    ensures DigitsValue(NatToDecimal(n), false) == n
  {
    var d := NatToDecimal(n);
    if n >= 10 {
      DecimalValue(n / 10);
      assert d[..|d| - 1] == NatToDecimal(n / 10);
    }
  }

  lemma {:induction false} DigitRunOfDigits(d: string, rest: string, hex: bool)
    requires forall k :: 0 <= k < |d| ==> IsDigitOf(d[k], hex)
    requires rest == "" || !IsDigitOf(rest[0], hex)
    ensures DigitRun(d + rest, hex) == |d|
  {
    if |d| > 0 {
      assert (d + rest)[1..] == d[1..] + rest;
      DigitRunOfDigits(d[1..], rest, hex);
    }
  }

  /**
    `parseInt` reads back the decimal text of a number followed by anything
    that is not a digit — the token of a `%begin` line followed by its
    timestamp, or by a carriage return.
   */
  lemma ParseIntDecimal(n: nat, rest: string)
    requires rest == "" || !IsDecimalDigit(rest[0])
    requires n == 0 ==> rest == "" || (rest[0] != 'x' && rest[0] != 'X')
    ensures ParseInt(NatToDecimal(n) + rest) == Some(n)
  {
    var d := NatToDecimal(n);
    var s := d + rest;
    assert s[0] == d[0];
    assert !(|s| >= 2 && s[0] == '0' && (s[1] == 'x' || s[1] == 'X')) by {
      if |d| >= 2 { assert s[1] == d[1]; }
    }
    ParseIntOfDigit(s);
    DigitRunOfDigits(d, rest, false);
    assert s[..|d|] == d;
    DecimalValue(n);
  }

  /** Text that starts with a decimal digit and no `0x` is read as a decimal run. */
  lemma ParseIntOfDigit(s: string)
    requires s != [] && IsDecimalDigit(s[0])
    requires !(|s| >= 2 && s[0] == '0' && (s[1] == 'x' || s[1] == 'X'))
    ensures ParseInt(s) == ParseRun(s, false)
  {
    TrimStartKeeps(s);
    assert s[0] != '-' && s[0] != '+';
    assert ParseUnsigned(s) == ParseRun(s, false);
  }

  /** `parseInt` is NaN when no digit follows the whitespace and the sign. */
  lemma ParseIntNoDigits(s: string)
    requires var t := TrimStart(s);
      var u := if |t| > 0 && (t[0] == '-' || t[0] == '+') then t[1..] else t;
      u == "" || !IsDecimalDigit(u[0])
    ensures ParseInt(s) == None
  {
    var t := TrimStart(s);
    var u := if |t| > 0 && (t[0] == '-' || t[0] == '+') then t[1..] else t;
    assert ParseUnsigned(u) == None by {
      assert DigitRun(u, false) == 0;
    }
  }

  /** `parseInt("undefined")` is NaN: `u` is not a digit. */
  lemma UndefinedIsNaN()
    ensures ParseInt("undefined") == None
  {
    TrimStartKeeps("undefined");
    ParseIntNoDigits("undefined");
  }
}
