/**
 * The JavaScript (and Python) value semantics the rest of the model relies on:
 * optional values, truthiness of strings, JSON objects as maps, prefix and
 * substring tests, `split`/`join` on one separator character, `parseInt` in
 * base 10 and 16, and number-to-string conversion.
 */
module Js {

  datatype Option<+T> = None | Some(value: T)

  /** A JSON value that the model stores and compares but does not look inside. */
  datatype JsValue = JStr(s: string) | JNum(n: int) | JBool(b: bool) | JNull | JOpaque(tag: nat)

  /** A plain JSON object: property name to value. Object spread `{...a, ...b}` is `a + b`. */
  type JsObject = map<string, JsValue>

  /** `obj.key`: absent keys read as `undefined`, here `None`. */
  function Get(obj: JsObject, key: string): (r: Option<JsValue>)
    ensures r.Some? <==> key in obj
  {
    if key in obj then Some(obj[key]) else None
  }

  /** A string is truthy when it is present and not empty. */
  predicate Truthy(a: Option<string>) {
    a.Some? && a.value != ""
  }

  /** `a || b` over possibly absent strings. */
  function Or(a: Option<string>, b: Option<string>): (r: Option<string>)
    ensures Truthy(a) ==> r == a
    ensures !Truthy(a) ==> r == b
  {
    if Truthy(a) then a else b
  }

  /** `n || 1` over a possibly absent (or NaN) number: 0 and absent become 1. */
  function Or1(n: Option<int>): (r: int)
    ensures r != 0
    ensures n.Some? && n.value != 0 ==> r == n.value
  {
    if n.Some? && n.value != 0 then n.value else 1
  }

  function Min(a: int, b: int): int { if a <= b then a else b }

  function Max(a: int, b: int): int { if a >= b then a else b }

  predicate StartsWith(s: string, prefix: string) {
    |prefix| <= |s| && s[..|prefix|] == prefix
  }

  /** Strings whose first characters differ do not start one with the other. */
  lemma {:induction false} NotStartsWith(s: string, prefix: string)
    requires |s| > 0 && |prefix| > 0 && s[0] != prefix[0]
    ensures !StartsWith(s, prefix)
  {
  }

  /** Substring test (`p in s` in Python, `s.includes(p)` in JavaScript). */
  predicate Contains(s: string, p: string)
    decreases |s|
  {
    StartsWith(s, p) || (|s| > 0 && Contains(s[1..], p))
  }

  lemma {:induction false} ContainsAt(s: string, i: nat, p: string)
    requires i + |p| <= |s| && s[i..i + |p|] == p
    ensures Contains(s, p)
    decreases i
  {
    if i > 0 {
      assert s[1..][i - 1..i - 1 + |p|] == s[i..i + |p|];
      ContainsAt(s[1..], i - 1, p);
    }
  }

  /** `s.substr(start, len)`: clamps at the end of the string. */
  function Substr(s: string, start: nat, len: nat): (r: string)
    ensures |r| <= len
  {
    var a := Min(start, |s|);
    var b := Min(start + len, |s|);
    s[a..b]
  }

  /** `s.replace(p, "")` for a one-character literal pattern: the first occurrence only. */
  function RemoveFirst(s: string, c: char): (r: string)
    ensures c !in s ==> r == s
    ensures |s| > 0 && s[0] == c ==> r == s[1..]
    decreases |s|
  {
    if |s| == 0 then s
    else if s[0] == c then s[1..]
    else [s[0]] + RemoveFirst(s[1..], c)
  }

  /** `s.replace(p, "")` for a literal string pattern: the first occurrence only. */
  function RemoveFirstString(s: string, p: string): (r: string)
    requires |p| > 0
    ensures StartsWith(s, p) ==> r == s[|p|..]
    decreases |s|
  {
    if StartsWith(s, p) then s[|p|..]
    else if |s| == 0 then s
    else [s[0]] + RemoveFirstString(s[1..], p)
  }

  // ---------------------------------------------------------------------------
  // split and join on a single separator character

  /** `s.split(sep)`: never empty; `"".split(",")` is `[""]`. */
  function Split(s: string, sep: char): (parts: seq<string>)
    ensures |parts| >= 1
    ensures forall k :: 0 <= k < |parts| ==> sep !in parts[k]
    decreases |s|
  {
    if |s| == 0 then [""]
    else if s[0] == sep then [""] + Split(s[1..], sep)
    else
      var rest := Split(s[1..], sep);
      [[s[0]] + rest[0]] + rest[1..]
  }

  /** `parts.join(sep)`. */
  function Join(parts: seq<string>, sep: char): string
    decreases |parts|
  {
    if |parts| == 0 then ""
    else if |parts| == 1 then parts[0]
    else parts[0] + [sep] + Join(parts[1..], sep)
  }

  predicate NoSeparator(parts: seq<string>, sep: char) {
    forall k :: 0 <= k < |parts| ==> sep !in parts[k]
  }

  lemma {:induction false} SplitPlain(a: string, sep: char)
    requires sep !in a
    ensures Split(a, sep) == [a]
    decreases |a|
  {
    if |a| > 0 {
      SplitPlain(a[1..], sep);
      assert [a[0]] + a[1..] == a;
    }
  }

  lemma {:induction false} SplitThroughSeparator(a: string, sep: char, rest: string)
    requires sep !in a
    ensures Split(a + [sep] + rest, sep) == [a] + Split(rest, sep)
    decreases |a|
  {
    if |a| == 0 {
      assert a + [sep] + rest == [sep] + rest;
      assert ([sep] + rest)[1..] == rest;
    } else {
      var s := a + [sep] + rest;
      assert s[1..] == a[1..] + [sep] + rest;
      SplitThroughSeparator(a[1..], sep, rest);
      assert [a[0]] + a[1..] == a;
    }
  }

  /** Splitting a joined list gives the list back when no part holds the separator. */
  lemma {:induction false} SplitJoin(parts: seq<string>, sep: char)
    requires |parts| >= 1 && NoSeparator(parts, sep)
    ensures Split(Join(parts, sep), sep) == parts
    decreases |parts|
  {
    if |parts| == 1 {
      SplitPlain(parts[0], sep);
    } else {
      SplitJoin(parts[1..], sep);
      SplitThroughSeparator(parts[0], sep, Join(parts[1..], sep));
      assert [parts[0]] + parts[1..] == parts;
    }
  }

  /** `path.includes('/') ? path.split('/').pop() : path`: the last `/`-separated segment. */
  function LastSegment(path: string): (r: string)
    ensures '/' !in r
    ensures '/' !in path ==> r == path
  {
    if '/' in path then
      var parts := Split(path, '/');
      parts[|parts| - 1]
    else path
  }

  // ---------------------------------------------------------------------------
  // numbers and digits

  predicate IsDigit(c: char) { '0' <= c <= '9' }

  function DigitValue(c: char): nat
    requires IsDigit(c)
  {
    (c - '0') as nat
  }

  function DigitChar(d: nat): (c: char)
    requires d < 10
    ensures IsDigit(c) && DigitValue(c) == d
  {
    ('0' as int + d) as char
  }

  /** The longest prefix of `s` made of characters accepted by `ok`. */
  function TakeWhile(s: string, ok: char -> bool): (r: string)
    ensures |r| <= |s| && r == s[..|r|]
    ensures forall k :: 0 <= k < |r| ==> ok(r[k])
    ensures |r| < |s| ==> !ok(s[|r|])
    decreases |s|
  {
    if |s| == 0 || !ok(s[0]) then "" else [s[0]] + TakeWhile(s[1..], ok)
  }

  /** The value of a string of decimal digits, most significant first. */
  function DecimalValue(ds: string): nat
    requires forall k :: 0 <= k < |ds| ==> IsDigit(ds[k])
    decreases |ds|
  {
    if |ds| == 0 then 0 else DecimalValue(ds[..|ds| - 1]) * 10 + DigitValue(ds[|ds| - 1])
  }

  /** `\s` in a regular expression, and the whitespace `parseInt` skips: WhiteSpace and LineTerminator of ECMA-262. */
  predicate IsSpace(c: char) {
    if c < '\U{00A0}' then c == ' ' || '\t' <= c <= '\r'  // tab, line feed, vertical tab, form feed, carriage return
    else IsWideSpace(c)
  }

  /** The whitespace characters of `\s` from U+00A0 up. */
  predicate IsWideSpace(c: char) {
    c == '\U{00A0}' || c == '\U{1680}' || ('\U{2000}' <= c <= '\U{200A}') || c == '\U{2028}' ||
    c == '\U{2029}' || c == '\U{202F}' || c == '\U{205F}' || c == '\U{3000}' || c == '\U{FEFF}'
  }

  /** `s` without its leading whitespace. */
  function TrimStart(s: string): (r: string)
    ensures |r| <= |s|
    ensures |r| > 0 ==> !IsSpace(r[0])
    ensures |s| > 0 && !IsSpace(s[0]) ==> r == s
    decreases |s|
  {
    if |s| > 0 && IsSpace(s[0]) then TrimStart(s[1..]) else s
  }

  predicate IsHexDigit(c: char) {
    IsDigit(c) || 'a' <= c <= 'f' || 'A' <= c <= 'F'
  }

  function HexDigitValue(c: char): (v: nat)
    requires IsHexDigit(c)
    ensures v < 16
  {
    if IsDigit(c) then DigitValue(c)
    else if 'a' <= c <= 'f' then (c - 'a') as nat + 10
    else (c - 'A') as nat + 10
  }

  /** The value of a string of hexadecimal digits, most significant first. */
  function HexValue(ds: string): nat
    requires forall k :: 0 <= k < |ds| ==> IsHexDigit(ds[k])
    decreases |ds|
  {
    if |ds| == 0 then 0 else HexValue(ds[..|ds| - 1]) * 16 + HexDigitValue(ds[|ds| - 1])
  }

  /** A CSS colour in `#rrggbb` notation. */
  predicate IsHexColor(s: string) {
    |s| == 7 && s[0] == '#' && forall k :: 1 <= k < 7 ==> IsHexDigit(s[k])
  }

  /** The leading run of digits of `s` in base 16 or 10 as a number; `None` when there is none. */
  function LeadingValue(s: string, hex: bool): (r: Option<int>)
    ensures r.Some? ==> r.value >= 0 && |s| > 0
  {
    if hex then
      var ds := TakeWhile(s, IsHexDigit);
      if |ds| == 0 then None else Some(HexValue(ds))
    else
      var ds := TakeWhile(s, IsDigit);
      if |ds| == 0 then None else Some(DecimalValue(ds))
  }

  predicate HasHexPrefix(s: string) {
    |s| >= 2 && s[0] == '0' && (s[1] == 'x' || s[1] == 'X')
  }

  /** The digits after an optional `0x` prefix, which always switches to base 16. */
  function ParseMagnitude(u: string, hex: bool): (r: Option<int>)
    ensures r.Some? ==> r.value >= 0 && |u| > 0
  {
    if HasHexPrefix(u) then LeadingValue(u[2..], true) else LeadingValue(u, hex)
  }

  /** An optional sign, then the magnitude. */
  function ParseSigned(t: string, hex: bool): (r: Option<int>)
    ensures r.Some? ==> |t| > 0
  {
    if |t| > 0 && t[0] == '-' then
      (match ParseMagnitude(t[1..], hex)
       case None => None
       case Some(n) => Some(-n))
    else if |t| > 0 && t[0] == '+' then ParseMagnitude(t[1..], hex)
    else ParseMagnitude(t, hex)
  }

  /**
   * `parseInt(s)` (`hex` false: base 10, or base 16 after a `0x` prefix) and
   * `parseInt(s, 16)` (`hex` true): leading whitespace is skipped, then an
   * optional sign, an optional `0x`, and the longest run of digits is read.
   * `None` stands for NaN (no digit there).
   */
  function ParseIntRadix(s: string, hex: bool): (r: Option<int>)
    ensures r.Some? ==> |s| > 0
  {
    ParseSigned(TrimStart(s), hex)
  }

  /** `parseInt(s)` with no radix. */
  function ParseInt(s: string): Option<int> {
    ParseIntRadix(s, false)
  }

  /** `parseInt(s, 16)`. */
  function ParseIntHex(s: string): Option<int> {
    ParseIntRadix(s, true)
  }

  /** The decimal digits of a natural number, without leading zeros. */
  function NatToString(n: nat): (r: string)
    ensures |r| >= 1
    ensures forall k :: 0 <= k < |r| ==> IsDigit(r[k])
    decreases n
  {
    if n < 10 then [DigitChar(n)] else NatToString(n / 10) + [DigitChar(n % 10)]
  }

  /** `String(n)` for an integer. */
  function IntToString(n: int): string {
    if n < 0 then "-" + NatToString(-n) else NatToString(n)
  }

  lemma {:induction false} DecimalValueOfNatToString(n: nat)
    ensures DecimalValue(NatToString(n)) == n
    decreases n
  {
    if n >= 10 {
      DecimalValueOfNatToString(n / 10);
      var s := NatToString(n);
      assert s[..|s| - 1] == NatToString(n / 10);
    }
  }

  lemma {:induction false} TakeWhileAll(s: string, ok: char -> bool)
    requires forall k :: 0 <= k < |s| ==> ok(s[k])
    ensures TakeWhile(s, ok) == s
    decreases |s|
  {
    if |s| > 0 {
      TakeWhileAll(s[1..], ok);
      assert [s[0]] + s[1..] == s;
    }
  }

  /** The run of accepted characters stops at the first character that is not accepted. */
  lemma {:induction false} TakeWhilePrefix(a: string, rest: string, ok: char -> bool)
    requires forall k :: 0 <= k < |a| ==> ok(a[k])
    requires |rest| > 0 && !ok(rest[0])
    ensures TakeWhile(a + rest, ok) == a
    decreases |a|
  {
    if |a| == 0 {
      assert a + rest == rest;
    } else {
      TakeWhilePrefix(a[1..], rest, ok);
      assert (a + rest)[1..] == a[1..] + rest;
      assert [a[0]] + a[1..] == a;
    }
  }

  /** A leading space is skipped. */
  lemma {:induction false} TrimStartSpace(s: string)
    ensures TrimStart(" " + s) == TrimStart(s)
  {
    assert (" " + s)[1..] == s;
  }

  lemma {:induction false} LeadingDecimal(s: string)
    requires |s| > 0 && forall k :: 0 <= k < |s| ==> IsDigit(s[k])
    ensures LeadingValue(s, false) == Some(DecimalValue(s))
  {
    TakeWhileAll(s, IsDigit);
  }

  /** `parseInt` of a string that starts with no whitespace, sign or `0x` reads its leading decimal digits. */
  lemma {:induction false} ParseUnsigned(s: string)
    requires |s| > 0 && !IsSpace(s[0]) && s[0] != '-' && s[0] != '+' && !HasHexPrefix(s)
    ensures ParseInt(s) == LeadingValue(s, false)
  {
    assert TrimStart(s) == s;
    assert ParseSigned(s, false) == ParseMagnitude(s, false);
  }

  /** `parseInt` of a minus sign followed by such a string reads its leading decimal digits, negated. */
  lemma {:induction false} ParseMinus(body: string)
    requires |body| > 0 && !HasHexPrefix(body)
    ensures ParseInt("-" + body) ==
            match LeadingValue(body, false)
            case None => None
            case Some(n) => Some(-n)
  {
    var s := "-" + body;
    assert s[0] == '-' && !IsSpace(s[0]);
    assert TrimStart(s) == s;
    assert s[1..] == body;
    assert ParseMagnitude(body, false) == LeadingValue(body, false);
  }

  /** `parseInt` of a plain run of decimal digits with no `0x` prefix is its decimal value. */
  lemma {:induction false} ParseDigits(s: string)
    requires |s| > 0 && forall k :: 0 <= k < |s| ==> IsDigit(s[k])
    requires !HasHexPrefix(s)
    ensures ParseInt(s) == Some(DecimalValue(s))
  {
    ParseUnsigned(s);
    LeadingDecimal(s);
  }

  /** `parseInt` of a minus sign followed by such digits is the negated decimal value. */
  lemma {:induction false} ParseNegativeDigits(body: string)
    requires |body| > 0 && forall k :: 0 <= k < |body| ==> IsDigit(body[k])
    requires !HasHexPrefix(body)
    ensures ParseInt("-" + body) == Some(-(DecimalValue(body) as int))
  {
    ParseMinus(body);
    LeadingDecimal(body);
  }

  /** Numbers are written without a `0x` prefix. */
  lemma {:induction false} NatToStringNotHex(n: nat)
    ensures !HasHexPrefix(NatToString(n))
  {
    var r := NatToString(n);
    if |r| >= 2 {
      assert IsDigit(r[1]);
    }
  }

  lemma {:induction false} ParseNatToString(n: nat)
    ensures ParseInt(NatToString(n)) == Some(n)
  {
    NatToStringNotHex(n);
    ParseDigits(NatToString(n));
    DecimalValueOfNatToString(n);
  }

  lemma {:induction false} ParseNegativeToString(n: int)
    requires n < 0
    ensures ParseInt(IntToString(n)) == Some(n)
  {
    var m: nat := -n;
    var body := NatToString(m);
    assert IntToString(n) == "-" + body;
    NatToStringNotHex(m);
    ParseMinus(body);
    assert LeadingValue(body, false) == Some(m) by {
      LeadingDecimal(body);
      DecimalValueOfNatToString(m);
    }
  }

  /** Reading back a number written by `String(n)` gives `n`. */
  lemma {:induction false} ParseIntToString(n: int)
    ensures ParseInt(IntToString(n)) == Some(n)
  {
    if n < 0 {
      ParseNegativeToString(n);
    } else {
      ParseNatToString(n);
    }
  }

  /** The value of two hex digits, high digit first. */
  function HexByte(hi: char, lo: char): (r: nat)
    requires IsHexDigit(hi) && IsHexDigit(lo)
    ensures r < 256
  {
    HexDigitValue(hi) * 16 + HexDigitValue(lo)
  }

  lemma {:induction false} HexValueOfTwo(ds: string)
    requires |ds| == 2 && IsHexDigit(ds[0]) && IsHexDigit(ds[1])
    ensures HexValue(ds) == HexByte(ds[0], ds[1])
    ensures HexValue(ds) < 256
  {
    var first := ds[..1];
    assert first[..0] == "";
    assert HexValue(first) == HexDigitValue(ds[0]);
  }

  /** `parseInt(ds, 16)` of two hexadecimal digits is the byte they spell. */
  lemma {:induction false} ParseTwoHexDigits(ds: string)
    requires |ds| == 2 && IsHexDigit(ds[0]) && IsHexDigit(ds[1])
    ensures ParseIntHex(ds) == Some(HexByte(ds[0], ds[1]))
  {
    assert TrimStart(ds) == ds by {
      assert !IsSpace(ds[0]);
    }
    assert ParseSigned(ds, true) == ParseMagnitude(ds, true) by {
      assert !(ds[0] == '-' || ds[0] == '+');
    }
    assert ParseMagnitude(ds, true) == LeadingValue(ds, true) by {
      assert !HasHexPrefix(ds);
    }
    TakeWhileAll(ds, IsHexDigit);
    HexValueOfTwo(ds);
  }

  // ---------------------------------------------------------------------------
  // Array.prototype.filter

  function Filter<T(!new)>(s: seq<T>, keep: T -> bool): (r: seq<T>)
    ensures |r| <= |s|
    ensures forall x :: x in r <==> x in s && keep(x)
    decreases |s|
  {
    if |s| == 0 then []
    else if keep(s[0]) then [s[0]] + Filter(s[1..], keep)
    else Filter(s[1..], keep)
  }

  /** `filter` keeps the relative order of what it keeps: `r` is `s` with some elements dropped. */
  ghost predicate IsSubsequence<T>(r: seq<T>, s: seq<T>)
    decreases |s|
  {
    |r| <= |s| &&
    (|r| == 0 || (r[0] == s[0] && IsSubsequence(r[1..], s[1..])) || (|r| < |s| && IsSubsequence(r, s[1..])))
  }

  lemma {:induction false} FilterIsSubsequence<T(!new)>(s: seq<T>, keep: T -> bool)
    ensures IsSubsequence(Filter(s, keep), s)
    decreases |s|
  {
    if |s| > 0 {
      FilterIsSubsequence(s[1..], keep);
      var r := Filter(s, keep);
      if keep(s[0]) {
        assert r[1..] == Filter(s[1..], keep);
      }
    }
  }

  /** `filter` keeps every copy of an element it keeps and no copy of one it drops. */
  lemma {:induction false} FilterCounts<T(!new)>(s: seq<T>, keep: T -> bool)
    ensures forall x :: multiset(Filter(s, keep))[x] == if keep(x) then multiset(s)[x] else 0
    decreases |s|
  {
    if |s| > 0 {
      FilterCounts(s[1..], keep);
      assert s == [s[0]] + s[1..];
    }
  }

  /** Filtering with a test that every element passes changes nothing. */
  lemma {:induction false} FilterAll<T(!new)>(s: seq<T>, keep: T -> bool)
    requires forall k :: 0 <= k < |s| ==> keep(s[k])
    ensures Filter(s, keep) == s
    decreases |s|
  {
    if |s| > 0 {
      FilterAll(s[1..], keep);
      assert [s[0]] + s[1..] == s;
    }
  }

  lemma {:induction false} FilterAppend<T(!new)>(a: seq<T>, b: seq<T>, keep: T -> bool)
    ensures Filter(a + b, keep) == Filter(a, keep) + Filter(b, keep)
    decreases |a|
  {
    if |a| > 0 {
      assert (a + b)[1..] == a[1..] + b;
      FilterAppend(a[1..], b, keep);
    } else {
      assert a + b == b;
    }
  }
}
