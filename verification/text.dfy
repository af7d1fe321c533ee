/** The pieces of Python's string behaviour that the client relies on:
    `str(int)`, `",".join(...)`, `s.split(",")` and the ordering `<` of
    `str` (code point by code point). */
module Text {
  import opened Wrappers

  predicate IsDigit(c: char) {
    '0' <= c <= '9'
  }

  predicate AllDigits(s: string) {
    forall i :: 0 <= i < |s| ==> IsDigit(s[i])
  }

  function DigitChar(d: nat): (c: char)
    requires d < 10
    ensures IsDigit(c)
    ensures c as int - '0' as int == d
  {
    ('0' as int + d) as char
  }

  function DigitValue(c: char): (d: nat)
    requires IsDigit(c)
    ensures d < 10
    ensures DigitChar(d) == c
  {
    c as int - '0' as int
  }

  /** Python's `str(n)` for n >= 0: decimal, no leading zeros. */
  function NatToDecimal(n: nat): (s: string)
    ensures 1 <= |s|
    ensures AllDigits(s)
    ensures s[0] == '0' ==> n == 0
    decreases n
  {
    if n < 10 then [DigitChar(n)] else NatToDecimal(n / 10) + [DigitChar(n % 10)]
  }

  /** Python's `str(n)` for any integer. */
  function IntToDecimal(n: int): (s: string)
    ensures 1 <= |s|
    ensures ',' !in s
    ensures n >= 0 <==> s[0] != '-'
  {
    if n < 0 then "-" + NatToDecimal(-n) else NatToDecimal(n)
  }

  /** The value of a string of decimal digits (most significant first). */
  function DigitsValue(s: string): nat
    requires AllDigits(s)
    decreases |s|
  {
    if s == [] then 0 else DigitsValue(s[..|s| - 1]) * 10 + DigitValue(s[|s| - 1])
  }

  function Pow10(n: nat): (p: nat)
    ensures 1 <= p
  {
    if n == 0 then 1 else 10 * Pow10(n - 1)
  }

  /** n digits hold a value below 10^n. */
  lemma {:induction false} DigitsValueBound(s: string)
    requires AllDigits(s)
    ensures DigitsValue(s) < Pow10(|s|)
    decreases |s|
  {
    if s != [] {
      DigitsValueBound(s[..|s| - 1]);
    }
  }

  /** Reads a non-empty run of decimal digits, as `int(s)` does for such strings. */
  function ParseNat(s: string): (r: Option<nat>)
    ensures r.Some? <==> s != [] && AllDigits(s)
  {
    if s != [] && AllDigits(s) then Some(DigitsValue(s)) else None
  }

  lemma {:induction false} DecimalValue(n: nat)
    ensures DigitsValue(NatToDecimal(n)) == n
    decreases n
  {
    var s := NatToDecimal(n);
    if n < 10 {
      assert s[..|s| - 1] == [];
    } else {
      assert s[..|s| - 1] == NatToDecimal(n / 10);
      DecimalValue(n / 10);
    }
  }

  /** `str` and `int` are inverse on the naturals. */
  lemma DecimalRoundTrip(n: nat)
    ensures ParseNat(NatToDecimal(n)) == Some(n)
  {
    DecimalValue(n);
  }

  /** `sep.join(parts)`. */
  function Join(parts: seq<string>, sep: char): (s: string)
    ensures |parts| == 1 ==> s == parts[0]
    decreases |parts|
  {
    if |parts| == 0 then ""
    else if |parts| == 1 then parts[0]
    else parts[0] + [sep] + Join(parts[1..], sep)
  }

  /** `s.split(sep)`: the maximal pieces between separators; always at least one
      piece (`"".split(",") == [""]`), empty pieces kept. */
  function Split(s: string, sep: char): (pieces: seq<string>)
    ensures 1 <= |pieces|
    ensures forall i :: 0 <= i < |pieces| ==> sep !in pieces[i]
    ensures Join(pieces, sep) == s
    decreases |s|
  {
    if s == [] then [""]
    else
      var rest := Split(s[1..], sep);
      if s[0] == sep then
        assert s == [sep] + s[1..];
        [""] + rest
      else
        var pieces := [[s[0]] + rest[0]] + rest[1..];
        assert s == [s[0]] + s[1..];
        assert pieces[1..] == rest[1..];
        pieces
  }

  /** The concatenation of a sequence of piece lists. */
  function Flatten(xss: seq<seq<string>>): (r: seq<string>)
    decreases |xss|
  {
    if xss == [] then [] else xss[0] + Flatten(xss[1..])
  }

  lemma {:induction false} SplitAroundSeparator(a: string, b: string, sep: char)
    ensures Split(a + [sep] + b, sep) == Split(a, sep) + Split(b, sep)
    decreases |a|
  {
    if a == [] {
      assert ([] + [sep] + b)[1..] == b;
    } else {
      assert (a + [sep] + b)[0] == a[0];
      assert (a + [sep] + b)[1..] == a[1..] + [sep] + b;
      SplitAroundSeparator(a[1..], b, sep);
    }
  }

  /** Splitting the joined arguments splits each argument separately. */
  lemma {:induction false} SplitJoin(parts: seq<string>, sep: char)
    requires 1 <= |parts|
    ensures Split(Join(parts, sep), sep) == Flatten(seq(|parts|, i requires 0 <= i < |parts| => Split(parts[i], sep)))
    decreases |parts|
  {
    var f := seq(|parts|, i requires 0 <= i < |parts| => Split(parts[i], sep));
    if |parts| == 1 {
      assert Flatten(f) == f[0] + Flatten([]);
    } else {
      SplitAroundSeparator(parts[0], Join(parts[1..], sep), sep);
      SplitJoin(parts[1..], sep);
      assert f[1..] == seq(|parts[1..]|, i requires 0 <= i < |parts[1..]| => Split(parts[1..][i], sep));
    }
  }

  lemma {:induction false} InFlatten(x: string, xss: seq<seq<string>>)
    ensures x in Flatten(xss) <==> exists j :: 0 <= j < |xss| && x in xss[j]
    decreases |xss|
  {
    if xss != [] {
      InFlatten(x, xss[1..]);
      if x in Flatten(xss[1..]) {
        var j :| 0 <= j < |xss[1..]| && x in xss[1..][j];
        assert x in xss[j + 1];
      }
      forall j | 1 <= j < |xss| && x in xss[j]
        ensures x in Flatten(xss[1..])
      {
        assert xss[1..][j - 1] == xss[j];
      }
    }
  }

  lemma SplitWithoutSeparator(s: string, sep: char)
    requires sep !in s
    ensures Split(s, sep) == [s]
  {
  }

  /** Python's `a < b` on `str`: lexicographic by code point, a proper prefix
      comes first. */
  predicate StrLess(a: string, b: string)
    decreases |a|
  {
    if a == [] then b != []
    else if b == [] then false
    else a[0] < b[0] || (a[0] == b[0] && StrLess(a[1..], b[1..]))
  }

  lemma {:induction false} StrLessIrreflexive(a: string)
    ensures !StrLess(a, a)
    decreases |a|
  {
    if a != [] {
      StrLessIrreflexive(a[1..]);
    }
  }

  lemma {:induction false} StrLessAsymmetric(a: string, b: string)
    ensures !(StrLess(a, b) && StrLess(b, a))
    decreases |a|
  {
    if a != [] && b != [] {
      StrLessAsymmetric(a[1..], b[1..]);
    }
  }

  lemma {:induction false} StrLessTransitive(a: string, b: string, c: string)
    requires StrLess(a, b) && StrLess(b, c)
    ensures StrLess(a, c)
    decreases |a|
  {
    if a != [] && b[0] == a[0] && c[0] == b[0] {
      StrLessTransitive(a[1..], b[1..], c[1..]);
    }
  }

  lemma {:induction false} StrLessTotal(a: string, b: string)
    requires a != b
    ensures StrLess(a, b) || StrLess(b, a)
    decreases |a|
  {
    if a != [] && b != [] && a[0] == b[0] {
      assert a == [a[0]] + a[1..] && b == [b[0]] + b[1..];
      StrLessTotal(a[1..], b[1..]);
    }
  }
}
