/** How numbers get into object names and attribute values, and back. */
module Encoding {
  import opened Wrappers

  function DigitChar(d: nat): (c: char)
    requires d < 16
    ensures DigitValue(c) == d
  {
    if d < 10 then '0' + d as char else 'a' + (d - 10) as char
  }

  /** The value of a digit character in bases up to 16. */
  function DigitValue(c: char): (d: nat)
    ensures d <= 16
  {
    if '0' <= c <= '9' then c as int - '0' as int
    else if 'a' <= c <= 'f' then c as int - 'a' as int + 10
    else if 'A' <= c <= 'F' then c as int - 'A' as int + 10
    else 16
  }

  predicate IsDigit(c: char, base: nat) {
    DigitValue(c) < base
  }

  /** Decimal and hexadecimal. */
  type Base = b: nat | b == 10 || b == 16 witness 10

  function Quotient(n: nat, base: Base): (q: nat)
    ensures q * base <= n < (q + 1) * base && (base <= n ==> q < n)
  {
    if base == 10 then n / 10 else n / 16
  }

  function Remainder(n: nat, base: Base): (r: nat)
    ensures r < base && Quotient(n, base) * base + r == n
  {
    if base == 10 then n % 10 else n % 16
  }

  function ToText(n: nat, base: Base): (s: string)
    ensures |s| > 0 && forall i :: 0 <= i < |s| ==> IsDigit(s[i], base)
    decreases n
  {
    if n < base then [DigitChar(n)]
    else ToText(Quotient(n, base), base) + [DigitChar(Remainder(n, base))]
  }

  /** setw(width) << setfill('0'): at least `width` characters. */
  function Padded(s: string, width: nat): (r: string)
    ensures |r| == if |s| < width then width else |s|
  {
    if |s| < width then seq(width - |s|, _ => '0') + s else s
  }

  function Value(s: string, base: Base): nat {
    if s == [] then 0 else Value(s[..|s| - 1], base) * base + DigitValue(s[|s| - 1])
  }

  lemma {:induction false} ValueOfText(n: nat, base: Base)
    ensures Value(ToText(n, base), base) == n
    decreases n
  {
    hide DigitChar, DigitValue, Quotient, Remainder;
    var s := ToText(n, base);
    if n < base {
      assert s[..0] == [];
    } else {
      ValueOfText(Quotient(n, base), base);
      assert s[..|s| - 1] == ToText(Quotient(n, base), base);
    }
  }

  lemma {:induction false} ValuePadded(s: string, width: nat, base: Base)
    ensures Value(Padded(s, width), base) == Value(s, base)
    decreases width
  {
    if |s| < width {
      var t := Padded(s, width);
      assert t == seq(width - |s|, _ => '0') + s;
      ValueZeros(s, width - |s|, base);
    }
  }

  lemma {:induction false} ValueZeros(s: string, n: nat, base: Base)
    ensures Value(seq(n, _ => '0') + s, base) == Value(s, base)
    decreases |s| + n
  {
    var zeros := seq(n, _ => '0');
    if s == [] {
      assert zeros + s == zeros;
      if n > 0 {
        assert zeros[..n - 1] == seq(n - 1, _ => '0') == seq(n - 1, _ => '0') + s;
        ValueZeros(s, n - 1, base);
      }
    } else {
      var t := zeros + s;
      assert t[..|t| - 1] == zeros + s[..|s| - 1];
      ValueZeros(s[..|s| - 1], n, base);
    }
  }

  function Pow(base: Base, n: nat): nat {
    if n == 0 then 1 else base * Pow(base, n - 1)
  }

  /** A number below base^n has at most n digits. */
  lemma {:induction false} TextLength(n: nat, base: Base, digits: nat)
    requires 0 < digits && n < Pow(base, digits)
    ensures |ToText(n, base)| <= digits
    decreases n
  {
    if n >= base {
      assert Pow(base, 1) == base * Pow(base, 0) == base;
      QuotientBelow(n, base, Pow(base, digits - 1));
      TextLength(Quotient(n, base), base, digits - 1);
    }
  }

  lemma QuotientBelow(n: nat, base: Base, p: nat)
    requires n < base * p
    ensures Quotient(n, base) < p
  {
    if base == 10 { assert n < 10 * p; } else { assert n < 16 * p; }
  }

  // ---- object names ----

  const NAME_DIGITS: nat := 16

  /** The name of the object that holds one stripe of the file `oid`. */
  function ObjectName(oid: string, stripe: nat): string {
    oid + "." + Padded(ToText(stripe, 16), NAME_DIGITS)
  }

  predicate LowerHex(c: char) {
    '0' <= c <= '9' || 'a' <= c <= 'f'
  }

  lemma {:induction false} TextLower(n: nat, base: Base)
    ensures forall i :: 0 <= i < |ToText(n, base)| ==> LowerHex(ToText(n, base)[i])
    decreases n
  {
    if n >= base { TextLower(Quotient(n, base), base); }
  }

  /** A name is that of the file, a dot, and sixteen lower-case hexadecimal digits that stand for the stripe. */
  lemma ObjectNameIs(oid: string, stripe: nat)
    requires stripe < Pow(16, NAME_DIGITS)
    ensures var name := ObjectName(oid, stripe);
            && |name| == |oid| + 17 && name[..|oid|] == oid && name[|oid|] == '.'
            && Value(name[|oid| + 1..], 16) == stripe && forall i :: |oid| < i < |name| ==> LowerHex(name[i])
  {
    var text, d := ToText(stripe, 16), Padded(ToText(stripe, 16), NAME_DIGITS);
    TextLength(stripe, 16, NAME_DIGITS);
    TextLower(stripe, 16);
    assert d == seq(16 - |text|, _ => '0') + text;
    assert forall i :: 0 <= i < |d| ==> LowerHex(d[i]);
    ValuePadded(text, NAME_DIGITS, 16);
    ValueOfText(stripe, 16);
    var name := ObjectName(oid, stripe);
    assert name[|oid| + 1..] == d;
    assert forall i :: |oid| < i < |name| ==> name[i] == d[i - |oid| - 1];
  }

  /** Different stripes, and different files, have different objects: a stripe number is below 2^64. */
  lemma ObjectNamesDiffer(oid: string, stripe: nat, oid': string, stripe': nat)
    requires stripe < Pow(16, NAME_DIGITS) && stripe' < Pow(16, NAME_DIGITS)
    requires ObjectName(oid, stripe) == ObjectName(oid', stripe')
    ensures oid == oid' && stripe == stripe'
  {
    var d, d' := Padded(ToText(stripe, 16), NAME_DIGITS), Padded(ToText(stripe', 16), NAME_DIGITS);
    TextLength(stripe, 16, NAME_DIGITS);
    TextLength(stripe', 16, NAME_DIGITS);
    var name := ObjectName(oid, stripe);
    assert name[|name| - 16..] == d;
    assert name[..|name| - 17] == oid;
    assert ObjectName(oid', stripe')[|name| - 16..] == d';
    assert ObjectName(oid', stripe')[..|name| - 17] == oid';
    ValuePadded(ToText(stripe, 16), NAME_DIGITS, 16);
    ValuePadded(ToText(stripe', 16), NAME_DIGITS, 16);
    ValueOfText(stripe, 16);
    ValueOfText(stripe', 16);
  }

  // ---- attribute values ----

  const LLONG_MAX: nat := 0x7fff_ffff_ffff_ffff

  /** uint2bl() */
  function NumberText(v: nat): string {
    Padded(ToText(v, 10), 16)
  }

  predicate IsSpace(c: char) {
    c == ' ' || 9 <= c as int <= 13
  }

  function SkipSpace(s: string): string {
    if s != [] && IsSpace(s[0]) then SkipSpace(s[1..]) else s
  }

  /** strict_strtoll(): the whole of `s` has to be a number, and it has to fit a signed 64-bit integer. */
  function StrictParse(s: string): Option<int> {
    var t := SkipSpace(s);
    var negative := t != [] && t[0] == '-';
    var digits := if t != [] && (t[0] == '-' || t[0] == '+') then t[1..] else t;
    if digits == [] || exists i :: 0 <= i < |digits| && !IsDigit(digits[i], 10) then None
    else
      var v: int := Value(digits, 10);
      if negative then (if v <= LLONG_MAX + 1 then Some(-v) else None)
      else if v <= LLONG_MAX then Some(v)
      else None
  }

  lemma DigitNotSpecial(c: char)
    requires IsDigit(c, 10)
    ensures !IsSpace(c) && c != '-' && c != '+'
  {
  }

  /** It is written in decimal, with zeros in front up to sixteen digits and none beyond. */
  lemma NumberTextIs(v: nat)
    ensures var s := NumberText(v);
            && (forall i :: 0 <= i < |s| ==> '0' <= s[i] <= '9') && Value(s, 10) == v
            && |s| >= 16 && (|s| > 16 ==> s[0] != '0')
  {
    ValuePadded(ToText(v, 10), 16, 10);
    ValueOfText(v, 10);
    TextLeads(v, 10);
    var s := NumberText(v);
    assert forall i :: 0 <= i < |s| ==> IsDigit(s[i], 10);
  }

  lemma {:induction false} TextLeads(n: nat, base: Base)
    ensures |ToText(n, base)| > 1 ==> ToText(n, base)[0] != '0'
    decreases n
  {
    if n >= base {
      var q := Quotient(n, base);
      TextLeads(q, base);
      if q < base { assert q > 0 && ToText(q, base)[0] == DigitChar(q); }
    }
  }

  /** A number written as an attribute is read back as the same number, however many digits it has, if
      and only if it fits a signed 64-bit integer; otherwise reading it fails. */
  lemma NumberRoundTrip(v: nat)
    ensures StrictParse(NumberText(v)) == if v <= LLONG_MAX then Some(v) else None
  {
    var s := NumberText(v);
    assert forall i :: 0 <= i < |s| ==> IsDigit(s[i], 10);
    DigitNotSpecial(s[0]);
    assert SkipSpace(s) == s;
    ValuePadded(ToText(v, 10), 16, 10);
    ValueOfText(v, 10);
  }
}
