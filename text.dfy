/**
 * The handful of Python string operations the program relies on, written
 * out: `str.isspace`/`str.strip`, `int()` on text, `"%d"` formatting,
 * `str.zfill`, `in` on strings, the code-point order `sorted` uses, and
 * the site's `uncomma` helper for counters such as "1,234".
 */
module Text {
  import opened Base

  /**
   * The characters `c.isspace()` accepts, which are also what `str.strip`,
   * `int()` and `\\s` skip: tab to carriage return, the separators U+001C
   * to U+001F and the space, and the Unicode spaces above U+007F. They are
   * the ten ranges of `SpaceRange`, looked up in order.
   */
  predicate IsSpace(c: char)
  {
    SpaceFrom(c, 0)
  }

  /** Range `i` of whitespace code points, lowest first. */
  function SpaceRange(i: nat): (r: (char, char))
    requires i < 10
  {
    if i == 0 then ('\t', '\r')
    else if i == 1 then ('\U{1C}', ' ')
    else if i == 2 then ('\U{85}', '\U{85}')
    else if i == 3 then ('\U{A0}', '\U{A0}')
    else if i == 4 then ('\U{1680}', '\U{1680}')
    else if i == 5 then ('\U{2000}', '\U{200A}')
    else if i == 6 then ('\U{2028}', '\U{2029}')
    else if i == 7 then ('\U{202F}', '\U{202F}')
    else if i == 8 then ('\U{205F}', '\U{205F}')
    else ('\U{3000}', '\U{3000}')
  }

  /** `c` lies in one of the ranges numbered `i` or above. */
  predicate SpaceFrom(c: char, i: nat)
    requires i <= 10
    decreases 10 - i
  {
    i < 10 && (SpaceRange(i).0 <= c <= SpaceRange(i).1 || SpaceFrom(c, i + 1))
  }

  /** The ranges from the third on are all above U+007F. */
  lemma {:induction false} SpaceFromWide(c: char, i: nat)
    requires 2 <= i <= 10 && SpaceFrom(c, i)
    ensures '\U{85}' <= c
    decreases 10 - i
  {
    if !(SpaceRange(i).0 <= c <= SpaceRange(i).1) {
      SpaceFromWide(c, i + 1);
    }
  }

  /** Printable ASCII other than the space is not whitespace. */
  lemma NotSpace(c: char)
    requires '!' <= c <= '~'
    ensures !IsSpace(c)
  {
    if SpaceFrom(c, 2) {
      SpaceFromWide(c, 2);
    }
  }

  predicate IsDigit(c: char)
  {
    '0' <= c <= '9'
  }

  predicate AllDigits(s: string)
  {
    forall i :: 0 <= i < |s| ==> IsDigit(s[i])
  }

  function LStrip(s: string): (r: string)
    ensures |r| <= |s| && r == s[|s| - |r|..]
    ensures forall i :: 0 <= i < |s| - |r| ==> IsSpace(s[i])
    ensures r != [] ==> !IsSpace(r[0])
  {
    if s != [] && IsSpace(s[0]) then LStrip(s[1..]) else s
  }

  function RStrip(s: string): (r: string)
    ensures |r| <= |s| && r == s[..|r|]
    ensures forall i :: |r| <= i < |s| ==> IsSpace(s[i])
    ensures r != [] ==> !IsSpace(r[|r| - 1])
  {
    if s != [] && IsSpace(s[|s| - 1]) then RStrip(s[..|s| - 1]) else s
  }

  /** `s.strip()`: the longest middle part that neither starts nor ends with whitespace. */
  function Strip(s: string): (r: string)
    ensures r != [] ==> !IsSpace(r[0]) && !IsSpace(r[|r| - 1])
    ensures r == [] <==> forall i :: 0 <= i < |s| ==> IsSpace(s[i])
  {
    var l := LStrip(s);
    var r := RStrip(l);
    assert r != [] ==> r[0] == l[0];
    assert r == [] ==> l == [];
    r
  }

  /** Text that already has no surrounding whitespace is left as it is. */
  lemma StripKeeps(s: string)
    requires s != [] ==> !IsSpace(s[0]) && !IsSpace(s[|s| - 1])
    ensures Strip(s) == s
  {
  }

  /** `re.sub(',', '', s)` */
  function RemoveCommas(s: string): (r: string)
    ensures |r| <= |s|
    ensures forall i :: 0 <= i < |r| ==> r[i] != ','
  {
    if s == [] then []
    else (if s[0] == ',' then [] else [s[0]]) + RemoveCommas(s[1..])
  }

  lemma {:induction false} RemoveCommasAppend(a: string, b: string)
    ensures RemoveCommas(a + b) == RemoveCommas(a) + RemoveCommas(b)
  {
    if a == [] {
      assert a + b == b;
    } else {
      var head := if a[0] == ',' then [] else [a[0]];
      assert (a + b)[0] == a[0];
      assert (a + b)[1..] == a[1..] + b;
      RemoveCommasAppend(a[1..], b);
      calc {
        RemoveCommas(a + b);
        head + RemoveCommas(a[1..] + b);
        head + (RemoveCommas(a[1..]) + RemoveCommas(b));
        (head + RemoveCommas(a[1..])) + RemoveCommas(b);
      }
    }
  }

  lemma {:induction false} RemoveCommasDigits(s: string)
    requires AllDigits(s)
    ensures RemoveCommas(s) == s
  {
    if s != [] {
      RemoveCommasDigits(s[1..]);
    }
  }

  function DigitValue(c: char): int
    requires IsDigit(c)
  {
    c as int - '0' as int
  }

  function Digit(d: int): (c: char)
    requires 0 <= d < 10
    ensures IsDigit(c) && DigitValue(c) == d
  {
    ('0' as int + d) as char
  }

  /** The number a run of decimal digits denotes. */
  function DigitsValue(s: string): nat
    requires AllDigits(s)
  {
    if s == [] then 0
    else 10 * DigitsValue(s[..|s| - 1]) + DigitValue(s[|s| - 1])
  }

  function Pow10(n: nat): nat
  {
    if n == 0 then 1 else 10 * Pow10(n - 1)
  }

  lemma {:induction false} DigitsValueAppend(a: string, b: string)
    requires AllDigits(a) && AllDigits(b)
    ensures AllDigits(a + b)
    ensures DigitsValue(a + b) == DigitsValue(a) * Pow10(|b|) + DigitsValue(b)
  {
    if b != [] {
      var front := b[..|b| - 1];
      var d := DigitValue(b[|b| - 1]);
      assert (a + b)[..|a + b| - 1] == a + front;
      assert (a + b)[|a + b| - 1] == b[|b| - 1];
      DigitsValueAppend(a, front);
      assert AllDigits(a + b);
      var x, p, y := DigitsValue(a), Pow10(|front|), DigitsValue(front);
      assert DigitsValue(a + b) == 10 * DigitsValue(a + front) + d;
      assert DigitsValue(b) == 10 * y + d;
      assert Pow10(|b|) == 10 * p;
      ShiftDigit(x, p, y, d);
    } else {
      assert a + b == a;
    }
  }

  lemma ShiftDigit(x: int, p: int, y: int, d: int)
    ensures 10 * (x * p + y) + d == x * (10 * p) + (10 * y + d)
  {
  }

  /** Python's `int(s)` for text: optional surrounding whitespace, an optional sign, decimal digits. */
  function PyInt(s: string): (r: Result<int>)
    ensures r.Err? ==> r.fault == BadNumber
    ensures r.Ok? ==> Strip(s) != []
  {
    var t := Strip(s);
    var body := if |t| > 0 && (t[0] == '-' || t[0] == '+') then t[1..] else t;
    if body != [] && AllDigits(body) then
      var v: int := DigitsValue(body);
      Ok(if t[0] == '-' then -v else v)
    else Err(BadNumber)
  }

  /** `str(n)` for a natural number. */
  function NatStr(n: nat): (r: string)
    ensures r != [] && AllDigits(r)
    ensures DigitsValue(r) == n
    ensures r[0] == '0' ==> n == 0
  {
    if n < 10 then [Digit(n)]
    else
      var front := NatStr(n / 10);
      var r := front + [Digit(n % 10)];
      assert r[..|r| - 1] == front;
      r
  }

  /** `"%d" % n` and `str(n)` for an integer. */
  function FormatInt(n: int): (r: string)
    ensures r != []
  {
    if n < 0 then "-" + NatStr(-n) else NatStr(n)
  }

  /** `int(str(n)) == n`: parsing undoes formatting. */
  lemma IntRoundTrip(n: int)
    ensures PyInt(FormatInt(n)) == Ok(n)
  {
    var s := FormatInt(n);
    StripKeeps(s);
    var digits := NatStr(if n < 0 then -n else n);
    if n < 0 {
      assert s[1..] == digits;
    } else {
      assert !(s[0] == '-' || s[0] == '+');
    }
  }

  /**
   * The site's `uncomma`: blank text is 0, otherwise the stripped text
   * with its commas removed goes through `int()`.
   */
  function Uncomma(s: string): (r: Result<int>)
    ensures Strip(s) == [] ==> r == Ok(0)
    ensures r.Err? ==> r.fault == BadNumber
  {
    var t := Strip(s);
    if t == [] then Ok(0) else PyInt(RemoveCommas(t))
  }

  /** Three digits, zero-padded: the groups after the first in "1,234,567". */
  function Pad3(x: int): (r: string)
    requires 0 <= x < 1000
    ensures |r| == 3 && AllDigits(r)
  {
    [Digit(x / 100), Digit((x / 10) % 10), Digit(x % 10)]
  }

  lemma Pad3Value(x: int)
    requires 0 <= x < 1000
    ensures DigitsValue(Pad3(x)) == x
  {
    var r := Pad3(x);
    assert r[..2][..1] == r[..1];
    assert DigitsValue(r[..1]) == x / 100;
    assert DigitsValue(r[..2]) == 10 * (x / 100) + (x / 10) % 10;
  }

  /** A count as the site prints it, with a comma between groups of three digits. */
  function Grouped(n: nat): (r: string)
    ensures r != [] && IsDigit(r[0]) && IsDigit(r[|r| - 1])
  {
    if n < 1000 then NatStr(n)
    else Grouped(n / 1000) + "," + Pad3(n % 1000)
  }

  lemma {:induction false} GroupedDigits(n: nat)
    ensures var d := RemoveCommas(Grouped(n)); d != [] && AllDigits(d) && DigitsValue(d) == n
  {
    if n < 1000 {
      RemoveCommasDigits(NatStr(n));
    } else {
      var q, m := n / 1000, n % 1000;
      GroupedDigits(q);
      var head := RemoveCommas(Grouped(q));
      var tail := Pad3(m);
      assert Grouped(n) == Grouped(q) + "," + tail;
      RemoveCommasAppend(Grouped(q) + ",", tail);
      RemoveCommasAppend(Grouped(q), ",");
      RemoveCommasDigits(tail);
      assert RemoveCommas(Grouped(n)) == head + tail;
      DigitsValueAppend(head, tail);
      Pad3Value(m);
      assert Pow10(3) == 1000;
      assert DigitsValue(head + tail) == q * 1000 + m;
    }
  }

  /** `uncomma` reads back every count the site prints with thousands separators. */
  lemma UncommaGrouped(n: nat)
    ensures Uncomma(Grouped(n)) == Ok(n)
  {
    var g := Grouped(n);
    StripKeeps(g);
    GroupedDigits(n);
    var d := RemoveCommas(g);
    StripKeeps(d);
    assert !(d[0] == '-' || d[0] == '+');
  }

  /** A grouped count is made of digits and commas only. */
  lemma {:induction false} GroupedChars(n: nat)
    ensures forall k :: 0 <= k < |Grouped(n)| ==> IsDigit(Grouped(n)[k]) || Grouped(n)[k] == ','
  {
    if n >= 1000 {
      GroupedChars(n / 1000);
      var g := Grouped(n / 1000);
      var t := Pad3(n % 1000);
      assert Grouped(n) == g + [','] + t;
    }
  }

  /** `s.zfill(width)`: pad with zeros on the left, after any leading sign. */
  function ZFill(s: string, width: nat): (r: string)
    ensures |r| == if |s| >= width then |s| else width
  {
    if |s| >= width then s
    else
      var zeros := Zeros(width - |s|);
      if s != [] && (s[0] == '+' || s[0] == '-') then [s[0]] + zeros + s[1..]
      else zeros + s
  }

  /** `'0' * n` */
  function Zeros(n: nat): (r: string)
    ensures |r| == n && AllDigits(r)
  {
    if n == 0 then [] else Zeros(n - 1) + ['0']
  }

  lemma {:induction false} ZerosValue(n: nat)
    ensures DigitsValue(Zeros(n)) == 0
  {
    if n > 0 {
      assert Zeros(n)[..n - 1] == Zeros(n - 1);
      ZerosValue(n - 1);
    }
  }

  /** A month number padded to two places still reads back as that number. */
  lemma ZFillDigits(s: string, width: nat)
    requires s != [] && AllDigits(s)
    ensures var r := ZFill(s, width); r != [] && AllDigits(r) && DigitsValue(r) == DigitsValue(s)
  {
    var z := if |s| >= width then 0 else width - |s|;
    assert ZFill(s, width) == Zeros(z) + s;
    ZerosValue(z);
    DigitsValueAppend(Zeros(z), s);
  }

  lemma ZFillMonthRoundTrip(m: nat)
    ensures PyInt(ZFill(NatStr(m), 2)) == Ok(m)
  {
    var r := ZFill(NatStr(m), 2);
    ZFillDigits(NatStr(m), 2);
    StripKeeps(r);
    assert !(r[0] == '-' || r[0] == '+');
  }



  /** `k in s` for strings: `k` occurs in `s` at some position. */
  predicate IsSubstring(k: string, s: string)
  {
    exists i | 0 <= i <= |s| - |k| :: OccursAt(k, s, i)
  }

  predicate OccursAt(k: string, s: string, i: int)
  {
    0 <= i && i + |k| <= |s| && s[i..i + |k|] == k
  }

  lemma PrefixIsSubstring(k: string, t: string)
    ensures IsSubstring(k, k + t)
  {
    assert OccursAt(k, k + t, 0);
  }

  /** `a < b` on Python strings: code point by code point, a proper prefix first. */
  predicate StrLess(a: string, b: string)
  {
    if a == [] then b != []
    else if b == [] then false
    else if a[0] != b[0] then a[0] < b[0]
    else StrLess(a[1..], b[1..])
  }

  lemma {:induction false} StrLessIrreflexive(a: string)
    ensures !StrLess(a, a)
  {
    if a != [] {
      StrLessIrreflexive(a[1..]);
    }
  }

  lemma {:induction false} StrLessTransitive(a: string, b: string, c: string)
    requires StrLess(a, b) && StrLess(b, c)
    ensures StrLess(a, c)
  {
    if a != [] && b != [] && c != [] && a[0] == b[0] && b[0] == c[0] {
      StrLessTransitive(a[1..], b[1..], c[1..]);
    }
  }

  lemma {:induction false} StrLessTotal(a: string, b: string)
    ensures a == b || StrLess(a, b) || StrLess(b, a)
  {
    if a != [] && b != [] && a[0] == b[0] {
      StrLessTotal(a[1..], b[1..]);
      if a[1..] == b[1..] {
        assert a == [a[0]] + a[1..] && b == [b[0]] + b[1..];
      }
    }
  }

  lemma StrLessAsymmetric(a: string, b: string)
    requires StrLess(a, b)
    ensures !StrLess(b, a)
  {
    if StrLess(b, a) {
      StrLessTransitive(a, b, a);
      StrLessIrreflexive(a);
    }
  }
}
