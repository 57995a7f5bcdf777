/** Strings as the repository prints, joins and cuts them. */
module Text {

  /** True when `s` ends in `suffix` (JavaScript's `endsWith`). */
  predicate EndsWith(s: string, suffix: string) {
    |suffix| <= |s| && s[|s| - |suffix|..] == suffix
  }

  /** `parts.join(sep)` for a one-character separator. */
  function Join(parts: seq<string>, sep: char): string {
    if |parts| == 0 then ""
    else if |parts| == 1 then parts[0]
    else parts[0] + [sep] + Join(parts[1..], sep)
  }

  /** `s.split(sep)`: always at least one segment. */
  function Split(s: string, sep: char): (parts: seq<string>)
    ensures |parts| >= 1
    ensures forall i :: 0 <= i < |parts| ==> sep !in parts[i]
    ensures Join(parts, sep) == s
  {
    if s == "" then [""]
    else
      var rest := Split(s[1..], sep);
      if s[0] == sep then [""] + rest else [[s[0]] + rest[0]] + rest[1..]
  }

  /** A text holds at most one cut at the first occurrence of a separator. */
  lemma {:induction false} CutUnique(a: string, x: string, b: string, y: string, sep: char)
    requires sep !in a && sep !in b
    requires a + [sep] + x == b + [sep] + y
    ensures a == b && x == y
  {
    var s := a + [sep] + x;
    assert s[|a|] == sep && s[|b|] == sep;
    assert forall k :: 0 <= k < |a| ==> s[k] == a[k] != sep;
    assert forall k :: 0 <= k < |b| ==> s[k] == b[k] != sep;
    assert s[..|a|] == a && s[..|b|] == b;
    assert s[|a| + 1..] == x && s[|b| + 1..] == y;
  }

  lemma {:induction false} SplitUnique(a: seq<string>, b: seq<string>, sep: char)
    requires |a| >= 1 && |b| >= 1
    requires forall i :: 0 <= i < |a| ==> sep !in a[i]
    requires forall i :: 0 <= i < |b| ==> sep !in b[i]
    requires Join(a, sep) == Join(b, sep)
    ensures a == b
  {
    assert |a| > 1 ==> Join(a, sep)[|a[0]|] == sep;
    assert |b| > 1 ==> Join(b, sep)[|b[0]|] == sep;
    if |a| > 1 && |b| > 1 {
      CutUnique(a[0], Join(a[1..], sep), b[0], Join(b[1..], sep), sep);
      SplitUnique(a[1..], b[1..], sep);
    }
  }

  predicate IsDigit(c: char) {
    '0' <= c <= '9'
  }

  function Digit(n: nat): (c: char)
    requires n < 10
    ensures IsDigit(c) && (c as int) == ('0' as int) + n
  {
    ((('0' as int) + n) as char)
  }

  /** `String(n)` for a non-negative safe integer. */
  function Decimal(n: nat): (s: string)
    ensures |s| >= 1
    ensures forall i :: 0 <= i < |s| ==> IsDigit(s[i])
  {
    if n < 10 then [Digit(n)] else Decimal(n / 10) + [Digit(n % 10)]
  }

  lemma {:induction false} DecimalLonger(n: nat)
    requires n >= 10
    ensures |Decimal(n)| >= 2
  {
  }

  lemma {:induction false} DecimalInjective(m: nat, n: nat)
    requires Decimal(m) == Decimal(n)
    ensures m == n
  {
    if m < 10 || n < 10 {
      if m >= 10 { DecimalLonger(m); }
      if n >= 10 { DecimalLonger(n); }
      assert m < 10 && n < 10;
      assert Decimal(m)[0] == Digit(m) && Decimal(n)[0] == Digit(n);
    } else {
      var s := Decimal(m);
      assert s[..|s| - 1] == Decimal(m / 10) == Decimal(n / 10);
      assert s[|s| - 1] == Digit(m % 10) == Digit(n % 10);
      DecimalInjective(m / 10, n / 10);
    }
  }

  /** A number's digits never contain a character that is not a digit. */
  lemma DecimalAvoids(n: nat, c: char)
    requires !IsDigit(c)
    ensures c !in Decimal(n)
  {
  }

  /** `String(n)` for a safe integer. */
  function Number(n: int): string {
    if n >= 0 then Decimal(n) else "-" + Decimal(-n)
  }

  lemma {:induction false} NoLeadingZero(n: nat)
    requires n >= 1
    ensures Decimal(n)[0] != '0'
  {
    if n >= 10 {
      NoLeadingZero(n / 10);
    }
  }

  /** `pad(n)`: at least two digits. */
  function Pad(n: nat): string {
    if n < 10 then "0" + Decimal(n) else Decimal(n)
  }

  lemma PadInjective(m: nat, n: nat)
    requires Pad(m) == Pad(n)
    ensures m == n
  {
    if m >= 10 { NoLeadingZero(m); }
    if n >= 10 { NoLeadingZero(n); }
    if m < 10 && n < 10 {
      assert Decimal(m) == Pad(m)[1..] && Decimal(n) == Pad(n)[1..];
    }
    DecimalInjective(m, n);
  }
}
