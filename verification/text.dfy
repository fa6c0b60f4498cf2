/** Decimal text and the small string routines the plugin leans on: PHP's
    `(int)` cast and JavaScript's `parseInt(s, 10)` (both read an optional
    sign and the leading digits after whitespace), and PHP's `trim`,
    `explode` and `implode` as used on the stored product-id list. */
module Text {
  import opened Maybe

  predicate IsDigit(c: char) {
    '0' <= c <= '9'
  }

  predicate AllDigits(s: string) {
    forall i :: 0 <= i < |s| ==> IsDigit(s[i])
  }

  function DigitChar(d: nat): (c: char)
    requires d < 10
    ensures IsDigit(c)
  {
    ('0' as int + d) as char
  }

  /** The value of a decimal digit (0 for any other character). */
  function DigitValue(c: char): (d: nat)
    ensures IsDigit(c) ==> d < 10 && DigitChar(d) == c
  {
    if IsDigit(c) then c as int - '0' as int else 0
  }

  /** Decimal digits of n, most significant first, no leading zeros. */
  function NatToString(n: nat): (s: string)
    ensures |s| > 0 && AllDigits(s)
  {
    if n < 10 then [DigitChar(n)] else NatToString(n / 10) + [DigitChar(n % 10)]
  }

  /** PHP's conversion of an int to a string (also JavaScript's for safe integers). */
  function IntToString(i: int): (s: string)
    ensures |s| > 0
  {
    if i < 0 then "-" + NatToString(-i) else NatToString(i)
  }

  /** The number a string of decimal digits denotes. */
  function DigitsValue(s: string): nat {
    if |s| == 0 then 0 else DigitsValue(s[..|s| - 1]) * 10 + DigitValue(s[|s| - 1])
  }

  lemma {:induction false} DigitsValueOfNatToString(n: nat)
    ensures DigitsValue(NatToString(n)) == n
  {
    if n >= 10 {
      var s := NatToString(n);
      assert s[..|s| - 1] == NatToString(n / 10);
      DigitsValueOfNatToString(n / 10);
    }
  }

  /** Length of the longest prefix of s made of decimal digits. */
  function DigitRun(s: string): (n: nat)
    ensures n <= |s|
  {
    if |s| == 0 || !IsDigit(s[0]) then 0 else 1 + DigitRun(s[1..])
  }

  /** The non-negative number at the start of s and how many characters it
      spans; None when s does not start with a digit. */
  function ReadNat(s: string): (r: Option<(nat, nat)>)
    ensures r.Some? ==> 0 < r.value.1 <= |s|
  {
    var n := DigitRun(s);
    if n == 0 then None else Some((DigitsValue(s[..n]), n))
  }

  /** An optionally minus-signed number at the start of s, as JSON writes one. */
  function ReadInt(s: string): (r: Option<(int, nat)>)
    ensures r.Some? ==> 0 < r.value.1 <= |s|
  {
    if |s| > 0 && s[0] == '-' then
      match ReadNat(s[1..])
      case None => None
      case Some(p) => Some((0 - p.0 as int, p.1 + 1))
    else
      match ReadNat(s)
      case None => None
      case Some(p) => Some((p.0 as int, p.1))
  }

  /** s without its minus sign, if it has one. */
  function Unsigned(s: string): string {
    if |s| > 0 && s[0] == '-' then s[1..] else s
  }

  /** A zero followed by another digit: JSON's grammar does not allow it
      (`007` is not a JSON number). */
  predicate LeadingZero(s: string) {
    |s| >= 2 && s[0] == '0' && IsDigit(s[1])
  }

  lemma {:induction false} DigitRunOfDigits(ds: string, rest: string)
    requires AllDigits(ds)
    requires rest == [] || !IsDigit(rest[0])
    ensures DigitRun(ds + rest) == |ds|
  {
    if |ds| > 0 {
      assert (ds + rest)[1..] == ds[1..] + rest;
      DigitRunOfDigits(ds[1..], rest);
    }
  }

  /** Reading the decimal text of n back, whatever non-digit text follows it. */
  lemma ReadNatOfText(n: nat, rest: string)
    requires rest == [] || !IsDigit(rest[0])
    ensures ReadNat(NatToString(n) + rest) == Some((n, |NatToString(n)|))
  {
    var ds := NatToString(n);
    DigitRunOfDigits(ds, rest);
    assert (ds + rest)[..|ds|] == ds;
    DigitsValueOfNatToString(n);
  }

  lemma ReadIntOfText(i: int, rest: string)
    requires rest == [] || !IsDigit(rest[0])
    ensures ReadInt(IntToString(i) + rest) == Some((i, |IntToString(i)|))
  {
    if i < 0 {
      ReadNegativeOfText(-i, rest);
    } else {
      ReadNatOfText(i, rest);
      ReadIntUnsigned(NatToString(i) + rest);
    }
  }

  /** The decimal text of i is a JSON number: it has no leading zero. */
  lemma JsonIntOfText(i: int, rest: string)
    requires rest == [] || !IsDigit(rest[0])
    ensures !LeadingZero(Unsigned(IntToString(i) + rest))
  {
    var n: nat := if i < 0 then -i else i;
    assert Unsigned(IntToString(i) + rest) == NatToString(n) + rest by {
      if i < 0 {
        assert IntToString(i) + rest == ['-'] + (NatToString(n) + rest);
      } else {
        assert NatToString(n)[0] != '-';
      }
    }
    NatTextNoLeadingZero(n, rest);
  }

  lemma NatTextNoLeadingZero(n: nat, rest: string)
    requires rest == [] || !IsDigit(rest[0])
    ensures !LeadingZero(NatToString(n) + rest)
  {
    var t := NatToString(n) + rest;
    if n >= 10 {
      LeadingDigitOfPositive(n);
      assert t[0] == NatToString(n)[0];
    } else if |t| >= 2 {
      assert |NatToString(n)| == 1;
      assert t[1] == rest[0];
    }
  }

  lemma {:induction false} LeadingDigitOfPositive(n: nat)
    requires n > 0
    ensures NatToString(n)[0] != '0'
  {
    if n >= 10 {
      LeadingDigitOfPositive(n / 10);
    }
  }

  lemma ReadNegativeOfText(n: nat, rest: string)
    requires n > 0
    requires rest == [] || !IsDigit(rest[0])
    ensures ReadInt("-" + NatToString(n) + rest) == Some((0 - n, |NatToString(n)| + 1))
  {
    var ds := NatToString(n);
    assert "-" + ds + rest == ['-'] + (ds + rest);
    ReadNatOfText(n, rest);
    ReadIntNegative(ds + rest);
  }

  lemma ReadIntNegative(u: string)
    requires ReadNat(u).Some?
    ensures ReadInt(['-'] + u) == Some((0 - ReadNat(u).value.0 as int, ReadNat(u).value.1 + 1))
  {
    assert (['-'] + u)[1..] == u;
  }

  lemma ReadIntUnsigned(t: string)
    requires |t| > 0 && IsDigit(t[0])
    ensures ReadInt(t) == Some((ReadNat(t).value.0 as int, ReadNat(t).value.1))
  {
  }

  /** The whitespace PHP and JavaScript skip before a number (ASCII only). */
  predicate IsSpace(c: char) {
    c == ' ' || c == '\t' || c == '\n' || c == '\r' || c == '\U{000B}' || c == '\U{000C}'
  }

  function SpaceRun(s: string): (n: nat)
    ensures n <= |s|
    ensures forall i :: 0 <= i < n ==> IsSpace(s[i])
    ensures n < |s| ==> !IsSpace(s[n])
  {
    if |s| == 0 || !IsSpace(s[0]) then 0 else 1 + SpaceRun(s[1..])
  }

  /** The integer at the start of s after whitespace and an optional `+` or
      `-`, as JavaScript's `parseInt(s, 10)` and PHP's `(int)` cast read it;
      None when no digit follows (JavaScript's NaN; PHP turns that into 0). */
  function ParseLeadingInt(s: string): (r: Option<int>)
    ensures r.None? <==>
      var t := s[SpaceRun(s)..];
      var u := if |t| > 0 && (t[0] == '+' || t[0] == '-') then t[1..] else t;
      |u| == 0 || !IsDigit(u[0])
  {
    var t := s[SpaceRun(s)..];
    if |t| > 0 && t[0] == '+' then
      match ReadNat(t[1..])
      case None => None
      case Some(p) => Some(p.0 as int)
    else
      match ReadInt(t)
      case None => None
      case Some(p) => Some(p.0)
  }

  /** PHP's `(int)` cast of a string: the leading integer, or 0. */
  function PhpIntCast(s: string): int {
    ParseLeadingInt(s).GetOr(0)
  }

  /** PHP's `absint`: the magnitude of the `(int)` cast. */
  function AbsInt(s: string): (n: nat)
    ensures n == 0 <==> PhpIntCast(s) == 0
  {
    var i := PhpIntCast(s);
    if i < 0 then -i else i
  }

  /** Every integer's decimal text reads back as that integer, whatever
      non-digit text follows it. */
  lemma ParseLeadingIntOfText(i: int, rest: string)
    requires rest == [] || !IsDigit(rest[0])
    ensures ParseLeadingInt(IntToString(i) + rest) == Some(i)
  {
    var s := IntToString(i) + rest;
    assert SpaceRun(s) == 0 by {
      if i < 0 {
        assert s[0] == '-';
      } else {
        assert IsDigit(s[0]);
      }
    }
    assert s[SpaceRun(s)..] == s;
    ReadIntOfText(i, rest);
  }

  /** The characters PHP's `trim` strips by default. */
  predicate IsTrimmed(c: char) {
    c == ' ' || c == '\t' || c == '\n' || c == '\r' || c == '\0' || c == '\U{000B}'
  }

  function TrimStart(s: string): (t: string)
    ensures |t| <= |s| && t == s[|s| - |t|..]
    ensures |t| > 0 ==> !IsTrimmed(t[0])
    ensures |s| > 0 && !IsTrimmed(s[0]) ==> t == s
  {
    if |s| > 0 && IsTrimmed(s[0]) then TrimStart(s[1..]) else s
  }

  function TrimEnd(s: string): (t: string)
    ensures |t| <= |s| && t == s[..|t|]
    ensures |t| > 0 ==> !IsTrimmed(t[|t| - 1])
    ensures |s| > 0 && !IsTrimmed(s[|s| - 1]) ==> t == s
  {
    if |s| > 0 && IsTrimmed(s[|s| - 1]) then TrimEnd(s[..|s| - 1]) else s
  }

  /** PHP's `trim` with its default character list. */
  function Trim(s: string): string {
    TrimEnd(TrimStart(s))
  }

  /** PHP's `explode(sep, s)`: the pieces between separators, at least one. */
  function Split(s: string, sep: char): (parts: seq<string>)
    ensures |parts| > 0
    ensures forall i :: 0 <= i < |parts| ==> sep !in parts[i]
  {
    if |s| == 0 then [""]
    else
      var tail := Split(s[1..], sep);
      if s[0] == sep then [""] + tail else [[s[0]] + tail[0]] + tail[1..]
  }

  /** PHP's `implode(sep, parts)`. */
  function Join(parts: seq<string>, sep: char): string {
    if |parts| == 0 then ""
    else if |parts| == 1 then parts[0]
    else parts[0] + [sep] + Join(parts[1..], sep)
  }

  lemma {:induction false} SplitWithoutSeparator(s: string, sep: char)
    requires sep !in s
    ensures Split(s, sep) == [s]
  {
    if |s| > 0 {
      SplitWithoutSeparator(s[1..], sep);
      assert [s[0]] + s[1..] == s;
    }
  }

  lemma {:induction false} SplitAtSeparator(a: string, sep: char, b: string)
    requires sep !in a
    ensures Split(a + [sep] + b, sep) == [a] + Split(b, sep)
  {
    var s := a + [sep] + b;
    if |a| == 0 {
      assert s[1..] == b;
    } else {
      assert s[1..] == a[1..] + [sep] + b;
      SplitAtSeparator(a[1..], sep, b);
      assert [a[0]] + a[1..] == a;
    }
  }

  /** Splitting what was joined gives the pieces back, when no piece holds
      the separator: `explode` undoes `implode`. */
  lemma {:induction false} SplitJoin(parts: seq<string>, sep: char)
    requires |parts| > 0
    requires forall i :: 0 <= i < |parts| ==> sep !in parts[i]
    ensures Split(Join(parts, sep), sep) == parts
  {
    if |parts| == 1 {
      SplitWithoutSeparator(parts[0], sep);
    } else {
      SplitJoin(parts[1..], sep);
      SplitAtSeparator(parts[0], sep, Join(parts[1..], sep));
      assert [parts[0]] + parts[1..] == parts;
    }
  }
}
