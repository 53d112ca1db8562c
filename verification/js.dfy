/** The pieces of JavaScript semantics the controllers depend on: truthiness
    of request fields, template-literal interpolation, `String.prototype.trim`
    and `endsWith`, UTF-16 string length, and the global `parseInt`. */
module Js {

  datatype Option<+T> = None | Some(value: T)

  /** A request-body or query field: `undefined`, or the string the client sent. */
  type Field = Option<string>

  /** `!!f` for a string-or-undefined value: only `undefined` and "" are falsy. */
  predicate Truthy(f: Field)
  {
    f.Some? && f.value != ""
  }

  /** `${f}` inside a template literal. */
  function Show(f: Field): string
  {
    if f.Some? then f.value else "undefined"
  }

  predicate EndsWith(s: string, suffix: string)
  {
    |suffix| <= |s| && s[|s| - |suffix|..] == suffix
  }

  /** WhiteSpace and LineTerminator code points (ECMA-262 StrWhiteSpaceChar). */
  predicate IsSpace(c: char)
  {
    var n := c as int;
    n == 0x09 || n == 0x0A || n == 0x0B || n == 0x0C || n == 0x0D || n == 0x20
    || n == 0xA0 || n == 0x1680 || (0x2000 <= n <= 0x200A) || n == 0x2028
    || n == 0x2029 || n == 0x202F || n == 0x205F || n == 0x3000 || n == 0xFEFF
  }

  /** Drops leading white space: what is dropped is all white space, and what
      remains is a suffix of `s` that does not start with white space. */
  function TrimStart(s: string): (r: string)
    ensures |r| <= |s| && r == s[|s| - |r|..]
    ensures forall i :: 0 <= i < |s| - |r| ==> IsSpace(s[i])
    ensures r == [] || !IsSpace(r[0])
  {
    if s != [] && IsSpace(s[0]) then TrimStart(s[1..]) else s
  }

  /** Drops trailing white space, symmetrically to `TrimStart`. */
  function TrimEnd(s: string): (r: string)
    ensures |r| <= |s| && r == s[..|r|]
    ensures forall i :: |r| <= i < |s| ==> IsSpace(s[i])
    ensures r == [] || !IsSpace(r[|r| - 1])
  {
    if s != [] && IsSpace(s[|s| - 1]) then TrimEnd(s[..|s| - 1]) else s
  }

  /** `s.trim()`: a contiguous slice of `s` with white space at neither end. */
  function Trim(s: string): (r: string)
    ensures exists i, j :: 0 <= i <= j <= |s| && r == s[i..j]
    ensures r == [] || (!IsSpace(r[0]) && !IsSpace(r[|r| - 1]))
  {
    var t := TrimStart(s);
    var r := TrimEnd(t);
    assert r == s[|s| - |t|..|s| - |t| + |r|];
    r
  }

  /** Trimming a trimmed string changes nothing. */
  lemma TrimIdempotent(s: string)
    ensures Trim(Trim(s)) == Trim(s)
  {
    var t := Trim(s);
    if t != [] {
      assert TrimStart(t) == t;
      assert TrimEnd(t) == t;
    }
  }

  /** `s.length`: JavaScript counts UTF-16 code units, so a code point above
      U+FFFF counts twice. */
  function Utf16Length(s: string): (n: nat)
    ensures |s| <= n <= 2 * |s|
  {
    if s == [] then 0 else (if s[0] as int > 0xFFFF then 2 else 1) + Utf16Length(s[1..])
  }

  // ---------------------------------------------------------------- parseInt

  /** The value of `c` as a digit in radix 36; 36 when `c` is no digit at all. */
  function DigitValue(c: char): (d: nat)
    ensures d <= 36
  {
    if '0' <= c <= '9' then c as int - '0' as int
    else if 'a' <= c <= 'z' then c as int - 'a' as int + 10
    else if 'A' <= c <= 'Z' then c as int - 'A' as int + 10
    else 36
  }

  predicate IsDecimalDigit(c: char)
  {
    '0' <= c <= '9'
  }

  /** Length of the longest prefix of `s` made of radix-`radix` digits. */
  function DigitRun(s: string, radix: nat): (n: nat)
    ensures n <= |s|
    ensures forall i :: 0 <= i < n ==> DigitValue(s[i]) < radix
    ensures n == |s| || DigitValue(s[n]) >= radix
  {
    if s != [] && DigitValue(s[0]) < radix then 1 + DigitRun(s[1..], radix) else 0
  }

  /** The number written by the digit string `ds` in radix `radix`. */
  function DigitsValue(ds: string, radix: nat): nat
  {
    if ds == [] then 0
    else DigitsValue(ds[..|ds| - 1], radix) * radix + DigitValue(ds[|ds| - 1])
  }

  /** `parseInt(s)` without a radix argument; `None` stands for NaN. Leading
      white space is skipped, one sign is read, a `0x`/`0X` prefix switches to
      radix 16, and the longest run of digits that follows is converted. The
      result is the exact integer; JavaScript rounds beyond 2^53, which never
      moves a value into or out of [0, 100]. */
  function ParseInt(s: string): Option<int>
  {
    ParseSigned(TrimStart(s))
  }

  /** `parseInt` after leading white space is gone: an optional sign, then
      the unsigned part. */
  function ParseSigned(t: string): Option<int>
  {
    var negative := t != [] && t[0] == '-';
    var u := if t != [] && (t[0] == '-' || t[0] == '+') then t[1..] else t;
    match ParseUnsigned(u)
    case None => None
    case Some(v) => Some(if negative then 0 - v else v)
  }

  /** The unsigned part: a `0x`/`0X` prefix selects radix 16, otherwise
      radix 10; at least one digit must follow. */
  function ParseUnsigned(u: string): Option<nat>
  {
    var hex := |u| >= 2 && u[0] == '0' && (u[1] == 'x' || u[1] == 'X');
    var radix := if hex then 16 else 10;
    var body := if hex then u[2..] else u;
    var n := DigitRun(body, radix);
    if n == 0 then None else Some(DigitsValue(body[..n], radix))
  }

  function DigitChar(d: nat): (c: char)
    requires d < 10
    ensures IsDecimalDigit(c) && DigitValue(c) == d
  {
    ['0', '1', '2', '3', '4', '5', '6', '7', '8', '9'][d]
  }

  /** `String(n)` for a non-negative integer. */
  function NatToString(n: nat): (r: string)
    ensures |r| >= 1
    ensures forall i :: 0 <= i < |r| ==> IsDecimalDigit(r[i])
    ensures n < 10 <==> |r| == 1
  {
    if n < 10 then [DigitChar(n)] else NatToString(n / 10) + [DigitChar(n % 10)]
  }

  lemma {:induction false} DigitsValueOfNatToString(n: nat)
    ensures DigitsValue(NatToString(n), 10) == n
    decreases n
  {
    if n >= 10 {
      var p := NatToString(n / 10);
      var r := NatToString(n);
      assert r == p + [DigitChar(n % 10)];
      assert r[..|r| - 1] == p;
      DigitsValueOfNatToString(n / 10);
    }
  }

  lemma {:induction false} DigitRunOfDigitsThen(ds: string, rest: string)
    requires forall i :: 0 <= i < |ds| ==> IsDecimalDigit(ds[i])
    requires rest == [] || !IsDecimalDigit(rest[0])
    ensures DigitRun(ds + rest, 10) == |ds|
    decreases |ds|
  {
    if ds != [] {
      assert (ds + rest)[1..] == ds[1..] + rest;
      DigitRunOfDigitsThen(ds[1..], rest);
    } else {
      assert ds + rest == rest;
    }
  }

  lemma {:induction false} UnsignedReadsDecimalPrefix(n: nat, rest: string)
    requires rest == [] || (!IsDecimalDigit(rest[0]) && rest[0] != 'x' && rest[0] != 'X')
    ensures ParseUnsigned(NatToString(n) + rest) == Some(n)
  {
    var ds := NatToString(n);
    var s := ds + rest;
    assert |s| >= 2 ==> s[1] != 'x' && s[1] != 'X' by {
      if |s| >= 2 && |ds| == 1 { assert s[1] == rest[0]; }
      if |s| >= 2 && |ds| > 1 { assert s[1] == ds[1]; }
    }
    DigitRunOfDigitsThen(ds, rest);
    assert s[..|ds|] == ds;
    DigitsValueOfNatToString(n);
  }

  /** `parseInt` reads back what `String` writes, and stops at the first
      character that is not a digit: `parseInt("85")` and `parseInt("85.7")`
      are both 85. The one exception is `x` after a lone `0`, which would turn
      the text into a hexadecimal literal. */
  lemma {:induction false} ParseIntReadsDecimalPrefix(n: nat, rest: string)
    requires rest == [] || (!IsDecimalDigit(rest[0]) && rest[0] != 'x' && rest[0] != 'X')
    ensures ParseInt(NatToString(n) + rest) == Some(n)
  {
    var ds := NatToString(n);
    var s := ds + rest;
    UnsignedReadsDecimalPrefix(n, rest);
    assert s[0] == ds[0];
    NotSpace(s);
    PositiveSign(s, n);
  }

  /** The same with a minus sign in front. */
  lemma {:induction false} ParseIntReadsNegativePrefix(n: nat, rest: string)
    requires rest == [] || (!IsDecimalDigit(rest[0]) && rest[0] != 'x' && rest[0] != 'X')
    ensures ParseInt("-" + NatToString(n) + rest) == Some(-(n as int))
  {
    var ds := NatToString(n);
    UnsignedReadsDecimalPrefix(n, rest);
    var m := "-" + ds + rest;
    DropSign(ds, rest);
    NotSpace(m);
    NegativeSign(m, n);
  }

  /** `String(n)` for an integer below 10^21 in magnitude. */
  function IntToString(n: int): (r: string)
    ensures r != [] && (r[0] == '-' <==> n < 0)
  {
    if n >= 0 then NatToString(n) else "-" + NatToString(-n)
  }

  /** `parseInt(String(n))` is `n`. */
  lemma ParseIntOfIntToString(n: int)
    ensures ParseInt(IntToString(n)) == Some(n)
  {
    if n >= 0 {
      ParseIntReadsDecimalPrefix(n, []);
      AppendNothing(NatToString(n));
    } else {
      ParseIntReadsNegativePrefix(-n, []);
      AppendNothing("-" + NatToString(-n));
    }
  }

  lemma AppendNothing(s: string)
    ensures s + [] == s
  {
  }

  lemma DropSign(ds: string, rest: string)
    ensures var m := "-" + ds + rest; m[0] == '-' && m[1..] == ds + rest
  {
    var m := "-" + ds + rest;
    var s := ds + rest;
    assert |m[1..]| == |s|;
    forall i | 0 <= i < |s| ensures m[1..][i] == s[i] {
      if i < |ds| { assert m[i + 1] == ds[i]; } else { assert m[i + 1] == rest[i - |ds|]; }
    }
  }

  lemma PositiveSign(m: string, v: nat)
    requires m != [] && IsDecimalDigit(m[0]) && ParseUnsigned(m) == Some(v)
    ensures ParseSigned(m) == Some(v)
  {
  }

  lemma NegativeSign(m: string, v: nat)
    requires m != [] && m[0] == '-' && ParseUnsigned(m[1..]) == Some(v)
    ensures ParseSigned(m) == Some(-(v as int))
  {
  }

  lemma NotSpace(s: string)
    requires s != [] && (IsDecimalDigit(s[0]) || s[0] == '-')
    ensures TrimStart(s) == s
  {
    assert !IsSpace(s[0]);
  }

  /** Leading white space never changes what `parseInt` reads. */
  lemma ParseIntSkipsSpace(c: char, s: string)
    requires IsSpace(c)
    ensures ParseInt([c] + s) == ParseInt(s)
  {
    assert ([c] + s)[1..] == s;
    assert TrimStart([c] + s) == TrimStart(s);
  }
}
