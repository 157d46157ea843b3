/** Text helpers shared by the bot's modules: how Python renders a
    non-negative integer (`str(n)` and `f"{n:,}"`), the ASCII-lowercase
    identifier rule, `sep.join(...)` and `str.split(c)`. */
module Text {

  /** The decimal digit character for `d`. */
  function DigitChar(d: nat): (c: char)
    requires d < 10
    ensures IsDigit(c)
  {
    ('0' as int + d) as char
  }

  predicate IsDigit(c: char)
  {
    '0' <= c <= '9'
  }

  function DigitValue(c: char): (d: nat)
    requires IsDigit(c)
    ensures d < 10 && DigitChar(d) == c
  {
    c as int - '0' as int
  }

  predicate AllDigits(s: string)
  {
    forall i :: 0 <= i < |s| ==> IsDigit(s[i])
  }

  /** `str(n)` for a non-negative integer: digits only, no leading zero. */
  function Decimal(n: nat): (s: string)
    ensures |s| >= 1 && AllDigits(s)
    ensures |s| == 1 || s[0] != '0'
    decreases n
  {
    if n < 10 then [DigitChar(n)] else Decimal(n / 10) + [DigitChar(n % 10)]
  }

  /** Reads a string of decimal digits back as a number. */
  function ParseDecimal(s: string): nat
    requires AllDigits(s)
  {
    if s == [] then 0 else ParseDecimal(s[..|s| - 1]) * 10 + DigitValue(s[|s| - 1])
  }

  /** Rendering a number and reading it back gives the number. */
  lemma {:induction false} ParseDecimalOfDecimal(n: nat)
    ensures ParseDecimal(Decimal(n)) == n
  {
    if n >= 10 {
      ParseDecimalOfDecimal(n / 10);
      var s := Decimal(n);
      assert s[..|s| - 1] == Decimal(n / 10);
    }
  }

  /** Appending one digit to a number of at least one digit. */
  lemma DecimalShift(q: nat, d: nat)
    requires q >= 1 && d < 10
    ensures Decimal(q * 10 + d) == Decimal(q) + [DigitChar(d)]
  {
    var m := q * 10 + d;
    assert m / 10 == q && m % 10 == d;
  }

  /** The three-digit group of `f"{n:,}"`, zero-padded. */
  function Pad3(n: nat): string
    requires n < 1000
  {
    [DigitChar(n / 100), DigitChar(n / 10 % 10), DigitChar(n % 10)]
  }

  /** `f"{n:,}"`: decimal digits with a comma between groups of three. */
  function Grouped(n: nat): (s: string)
    ensures |s| >= 1 && forall i :: 0 <= i < |s| ==> IsDigit(s[i]) || s[i] == ','
    decreases n
  {
    if n < 1000 then Decimal(n) else Grouped(n / 1000) + "," + Pad3(n % 1000)
  }

  function WithoutCommas(s: string): string
  {
    if s == [] then [] else (if s[0] == ',' then [] else [s[0]]) + WithoutCommas(s[1..])
  }

  lemma {:induction false} WithoutCommasAppend(a: string, b: string)
    ensures WithoutCommas(a + b) == WithoutCommas(a) + WithoutCommas(b)
  {
    if a != [] {
      assert (a + b)[1..] == a[1..] + b;
      WithoutCommasAppend(a[1..], b);
    } else {
      assert a + b == b;
    }
  }

  lemma {:induction false} WithoutCommasOfDigits(s: string)
    requires AllDigits(s)
    ensures WithoutCommas(s) == s
  {
    if s != [] {
      WithoutCommasOfDigits(s[1..]);
    }
  }

  /** The digits of `n` followed by the zero-padded digits of `r`. */
  lemma DecimalGroup(q: nat, r: nat)
    requires q >= 1 && r < 1000
    ensures Decimal(q * 1000 + r) == Decimal(q) + Pad3(r)
  {
    GroupDigits(q, r);
    DecimalShift(q, r / 100);
    DecimalShift(q * 10 + r / 100, r / 10 % 10);
    DecimalShift(q * 100 + r / 10, r % 10);
  }

  /** The arithmetic of appending the three digits of `r` to `q`. */
  lemma GroupDigits(q: nat, r: nat)
    requires r < 1000
    ensures (q * 10 + r / 100) * 10 + r / 10 % 10 == q * 100 + r / 10
    ensures (q * 100 + r / 10) * 10 + r % 10 == q * 1000 + r
  {
    assert r / 10 == (r / 100) * 10 + r / 10 % 10;
    assert r == (r / 10) * 10 + r % 10;
  }

  /** Dropping the thousands separators of `f"{n:,}"` gives `str(n)`. */
  lemma {:induction false} GroupedIsDecimal(n: nat)
    ensures WithoutCommas(Grouped(n)) == Decimal(n)
    decreases n
  {
    if n < 1000 {
      WithoutCommasOfDigits(Decimal(n));
    } else {
      var q, r := n / 1000, n % 1000;
      GroupedIsDecimal(q);
      WithoutCommasAppend(Grouped(q) + ",", Pad3(r));
      WithoutCommasAppend(Grouped(q), ",");
      WithoutCommasOfDigits(Pad3(r));
      DecimalGroup(q, r);
      assert q * 1000 + r == n;
    }
  }

  predicate IsAsciiLower(c: char)
  {
    'a' <= c <= 'z'
  }

  /** `any(c not in ascii_lowercase for c in s)`. */
  function HasNonLowercase(s: string): (b: bool)
    ensures b <==> exists i :: 0 <= i < |s| && !IsAsciiLower(s[i])
  {
    if s == [] then false
    else if !IsAsciiLower(s[0]) then true
    else
      var rest := HasNonLowercase(s[1..]);
      assert forall i :: 1 <= i < |s| ==> s[i] == s[1..][i - 1];
      rest
  }

  /** `sep.join(parts)`. */
  function Join(parts: seq<string>, sep: string): string
  {
    if |parts| == 0 then ""
    else if |parts| == 1 then parts[0]
    else parts[0] + sep + Join(parts[1..], sep)
  }

  /** `s.split(c)` for a single-character separator. */
  function Split(s: string, c: char): (parts: seq<string>)
    ensures |parts| >= 1
  {
    if s == [] then [""]
    else if s[0] == c then [""] + Split(s[1..], c)
    else
      var rest := Split(s[1..], c);
      [[s[0]] + rest[0]] + rest[1..]
  }

  /** A piece without the separator, followed by the separator, splits off whole. */
  lemma {:induction false} SplitPiece(p: string, c: char, rest: string)
    requires c !in p
    ensures Split(p + [c] + rest, c) == [p] + Split(rest, c)
  {
    if p != [] {
      assert p[0] != c && (p + [c] + rest)[0] == p[0];
      assert (p + [c] + rest)[1..] == p[1..] + [c] + rest;
      SplitPiece(p[1..], c, rest);
      assert [p[0]] + p[1..] == p;
    }
  }

  lemma {:induction false} SplitNoSeparator(p: string, c: char)
    requires c !in p
    ensures Split(p, c) == [p]
  {
    if p != [] {
      assert p[0] != c;
      SplitNoSeparator(p[1..], c);
      assert [p[0]] + p[1..] == p;
    }
  }

  /** Splitting a joined list on the separator gives the list back, when
      no piece holds the separator. */
  lemma {:induction false} SplitJoin(parts: seq<string>, c: char)
    requires |parts| >= 1
    requires forall i :: 0 <= i < |parts| ==> c !in parts[i]
    ensures Split(Join(parts, [c]), c) == parts
  {
    if |parts| == 1 {
      SplitNoSeparator(parts[0], c);
    } else {
      var rest := Join(parts[1..], [c]);
      assert Join(parts, [c]) == parts[0] + [c] + rest;
      assert forall i :: 0 <= i < |parts[1..]| ==> parts[1..][i] == parts[i + 1];
      SplitJoin(parts[1..], c);
      SplitPiece(parts[0], c, rest);
      assert [parts[0]] + parts[1..] == parts;
    }
  }

  /** Joining two non-empty lists puts one separator between their joins. */
  lemma {:induction false} JoinConcat(a: seq<string>, b: seq<string>, sep: string)
    requires |a| >= 1 && |b| >= 1
    ensures Join(a + b, sep) == Join(a, sep) + sep + Join(b, sep)
  {
    if |a| > 1 {
      assert (a + b)[1..] == a[1..] + b;
      JoinConcat(a[1..], b, sep);
    } else {
      assert (a + b)[1..] == b;
    }
  }

  /** Python's `<=` on strings: code points compared in order, and a prefix
      comes first. */
  predicate Below(a: string, b: string)
  {
    a == [] || (b != [] && (a[0] < b[0] || (a[0] == b[0] && Below(a[1..], b[1..]))))
  }

  lemma {:induction false} BelowReflexive(a: string)
    ensures Below(a, a)
  {
    if a != [] {
      BelowReflexive(a[1..]);
    }
  }

  lemma {:induction false} BelowTotal(a: string, b: string)
    ensures Below(a, b) || Below(b, a)
  {
    if a != [] && b != [] && a[0] == b[0] {
      BelowTotal(a[1..], b[1..]);
    }
  }

  lemma {:induction false} BelowAntisymmetric(a: string, b: string)
    requires Below(a, b) && Below(b, a)
    ensures a == b
  {
    if a != [] && b != [] {
      BelowAntisymmetric(a[1..], b[1..]);
      assert a == [a[0]] + a[1..] && b == [b[0]] + b[1..];
    }
  }

  lemma {:induction false} BelowTransitive(a: string, b: string, c: string)
    requires Below(a, b) && Below(b, c)
    ensures Below(a, c)
  {
    if a != [] && b != [] && c != [] && a[0] == b[0] && b[0] == c[0] {
      BelowTransitive(a[1..], b[1..], c[1..]);
    }
  }
}
