/** The Python string built-ins the core calls, stated over `seq<char>`:
    `str.strip` (only whether anything is left), `str.join`, and the
    zero-padded decimal rendering `f"{n:02d}"` of a non-negative integer.
    `Split` and `ParseDecimal` are not called by the program: they are this
    model's inverses of `Join` and of the decimal rendering, used to state
    round trips. */
module PyStr {

  /** The characters `str.isspace()` accepts, which are the ones `str.strip()`
      removes from both ends of a string. */
  predicate IsSpace(c: char) {
    || c == ' '
    || ('\t' <= c <= '\r')
    || ('\U{1c}' <= c <= '\U{1f}')
    || c == '\U{85}' || c == '\U{a0}' || c == '\U{1680}'
    || ('\U{2000}' <= c <= '\U{200a}')
    || c == '\U{2028}' || c == '\U{2029}' || c == '\U{202f}' || c == '\U{205f}'
    || c == '\U{3000}'
  }

  predicate AllSpace(s: string) {
    forall i :: 0 <= i < |s| ==> IsSpace(s[i])
  }

  /** `s.lstrip()`: drops the leading whitespace and keeps a suffix of `s`. */
  function TrimStart(s: string): (r: string)
    ensures |r| <= |s| && r == s[|s| - |r|..]
    ensures r == [] <==> AllSpace(s)
    ensures r != [] ==> !IsSpace(r[0])
  {
    if s != [] && IsSpace(s[0]) then TrimStart(s[1..]) else s
  }

  /** `s.rstrip()`: drops the trailing whitespace and keeps a prefix of `s`. */
  function TrimEnd(s: string): (r: string)
    ensures |r| <= |s| && r == s[..|r|]
    ensures r == [] <==> AllSpace(s)
    ensures r != [] ==> !IsSpace(r[|r| - 1])
  {
    if s != [] && IsSpace(s[|s| - 1]) then TrimEnd(s[..|s| - 1]) else s
  }

  /** `s.strip()`: empty exactly when `s` is all whitespace, and otherwise
      starts and ends with a non-whitespace character. */
  function Strip(s: string): (r: string)
    ensures r == [] <==> AllSpace(s)
    ensures r != [] ==> !IsSpace(r[0]) && !IsSpace(r[|r| - 1])
  {
    TrimEnd(TrimStart(s))
  }

  /** `sep.join(parts)`. */
  function Join(sep: string, parts: seq<string>): string {
    if |parts| == 0 then ""
    else if |parts| == 1 then parts[0]
    else parts[0] + sep + Join(sep, parts[1..])
  }

  /** The pieces of `s` between the occurrences of `sep`, always at least
      one (what Python's `s.split(sep)` gives); the inverse of `Join` used to
      state the shape of a joined picture. */
  function Split(s: string, sep: char): (r: seq<string>)
    ensures |r| >= 1
  {
    if s == [] then [""]
    else
      var rest := Split(s[1..], sep);
      if s[0] == sep then [""] + rest else [[s[0]] + rest[0]] + rest[1..]
  }

  /** A character outside the separator and outside every part is outside
      the joined string. */
  lemma {:induction false} JoinAvoids(sep: string, parts: seq<string>, c: char)
    requires c !in sep
    requires forall i :: 0 <= i < |parts| ==> c !in parts[i]
    ensures c !in Join(sep, parts)
  {
    if |parts| > 1 {
      JoinAvoids(sep, parts[1..], c);
    }
  }

  lemma {:induction false} SplitWithoutSeparator(a: string, sep: char)
    requires sep !in a
    ensures Split(a, sep) == [a]
  {
    if a != [] {
      SplitWithoutSeparator(a[1..], sep);
      assert [a[0]] + a[1..] == a;
    }
  }

  lemma {:induction false} SplitAtFirst(a: string, sep: char, b: string)
    requires sep !in a
    ensures Split(a + [sep] + b, sep) == [a] + Split(b, sep)
  {
    if a == [] {
      assert (a + [sep] + b)[1..] == b;
    } else {
      assert (a + [sep] + b)[1..] == a[1..] + [sep] + b;
      SplitAtFirst(a[1..], sep, b);
      assert [a[0]] + a[1..] == a;
    }
  }

  /** Splitting on a separator that no part contains undoes the join. */
  lemma {:induction false} SplitJoin(parts: seq<string>, sep: char)
    requires |parts| >= 1
    requires forall i :: 0 <= i < |parts| ==> sep !in parts[i]
    ensures Split(Join([sep], parts), sep) == parts
  {
    if |parts| == 1 {
      SplitWithoutSeparator(parts[0], sep);
    } else {
      SplitJoin(parts[1..], sep);
      SplitAtFirst(parts[0], sep, Join([sep], parts[1..]));
      assert [parts[0]] + parts[1..] == parts;
    }
  }

  predicate IsDigit(c: char) {
    '0' <= c <= '9'
  }

  predicate AllDigits(s: string) {
    forall i :: 0 <= i < |s| ==> IsDigit(s[i])
  }

  function DigitChar(d: nat): (c: char)
    requires d < 10
    ensures IsDigit(c) && (c == '0' <==> d == 0)
  {
    ('0' as int + d) as char
  }

  function DigitValue(c: char): (d: nat)
    requires IsDigit(c)
    ensures d < 10 && DigitChar(d) == c
  {
    c as int - '0' as int
  }

  /** The decimal digits of `n`, most significant first, without padding
      (Python's `str(n)` for `n >= 0`). */
  function Decimal(n: nat): (s: string)
    ensures 1 <= |s| && AllDigits(s)
    ensures n < 10 <==> |s| == 1
    ensures 0 < n ==> s[0] != '0'
    decreases n
  {
    if n < 10 then [DigitChar(n)] else Decimal(n / 10) + [DigitChar(n % 10)]
  }

  /** The value of a string of decimal digits (`int(s)` for such strings). */
  function ParseDecimal(s: string): nat
    requires AllDigits(s)
  {
    if s == [] then 0 else ParseDecimal(s[..|s| - 1]) * 10 + DigitValue(s[|s| - 1])
  }

  lemma {:induction false} DecimalRoundTrip(n: nat)
    ensures ParseDecimal(Decimal(n)) == n
    decreases n
  {
    if n >= 10 {
      DecimalRoundTrip(n / 10);
      var s := Decimal(n);
      assert s[..|s| - 1] == Decimal(n / 10);
      assert DigitValue(DigitChar(n % 10)) == n % 10;
    } else {
      assert DigitValue(DigitChar(n)) == n;
    }
  }

  /** A string of digits without a leading zero (other than `"0"` itself)
      is the decimal rendering of its value: `Decimal` is the only rendering
      `ParseDecimal` reads back to a given number. */
  lemma {:induction false} DecimalCanonical(t: string)
    requires AllDigits(t) && 1 <= |t| && (|t| == 1 || t[0] != '0')
    ensures Decimal(ParseDecimal(t)) == t
    ensures 2 <= |t| ==> 10 <= ParseDecimal(t)
    decreases |t|
  {
    var init := t[..|t| - 1];
    assert ParseDecimal(t) == ParseDecimal(init) * 10 + DigitValue(t[|t| - 1]);
    if |t| == 1 {
      assert ParseDecimal(init) == 0;
    } else {
      assert init[0] == t[0];
      DecimalCanonical(init);
      assert 1 <= ParseDecimal(init) by {
        if |init| == 1 {
          assert ParseDecimal(init) == DigitValue(init[0]);
        }
      }
      assert t == init + [t[|t| - 1]];
    }
  }

  /** `f"{n:02d}"`: at least two digits, zero-padded on the left only below
      10, exactly two below 100, and it reads back as `n`. */
  function Pad2(n: nat): (s: string)
    ensures 2 <= |s| && AllDigits(s) && ParseDecimal(s) == n
    ensures n < 100 ==> |s| == 2
    ensures s[0] == '0' <==> n < 10
  {
    DecimalRoundTrip(n);
    if n < 10 then
      var s := "0" + Decimal(n);
      assert s[..|s| - 1] == "0";
      s
    else
      Decimal(n)
  }

  /** A string of at least two digits that has a leading zero only when it
      has exactly two is the `02d` rendering of its value: `Pad2` is the only
      rendering that reads back to a given number. */
  lemma Pad2Canonical(t: string)
    requires AllDigits(t) && 2 <= |t| && (|t| == 2 || t[0] != '0')
    ensures Pad2(ParseDecimal(t)) == t
  {
    if t[0] == '0' {
      var d := t[1..];
      assert ParseDecimal(t) == ParseDecimal(t[..1]) * 10 + DigitValue(t[1]);
      assert ParseDecimal(t[..1]) == DigitValue(t[0]) == 0 by {
        assert ParseDecimal(t[..1][..0]) == 0;
      }
      DecimalCanonical(d);
      assert ParseDecimal(d) == DigitValue(t[1]) by {
        assert ParseDecimal(d[..0]) == 0;
      }
      assert t == "0" + d;
    } else {
      DecimalCanonical(t);
    }
  }
}
