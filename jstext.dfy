/** The few JavaScript built-ins the attendance core leans on, stated exactly for
    the values it feeds them: `String(n)`, `padStart`, `split`, `join` and `Number`. */
module JsText {

  /** A JavaScript number as the core produces it: an integer or NaN. */
  datatype JsNumber = Num(n: int) | NaN {
    /** `x + k`; NaN absorbs every addition. */
    function Plus(k: int): JsNumber {
      if Num? then Num(n + k) else NaN
    }
  }

  predicate IsDigit(c: char) {
    '0' <= c <= '9'
  }

  predicate AllDigits(s: string) {
    forall i :: 0 <= i < |s| ==> IsDigit(s[i])
  }

  function DigitValue(c: char): int {
    c as int - '0' as int
  }

  function DigitChar(d: nat): (c: char)
    requires d < 10
    ensures IsDigit(c) && DigitValue(c) == d
  {
    (d + '0' as int) as char
  }

  /** The value of a string of decimal digits, most significant first. */
  function DigitsValue(s: string): int {
    if s == [] then 0 else DigitsValue(s[..|s| - 1]) * 10 + DigitValue(s[|s| - 1])
  }

  /** `String(n)` for a non-negative integer: its shortest decimal form. */
  function NatToString(n: nat): string
    decreases n
  {
    if n < 10 then [DigitChar(n)] else NatToString(n / 10) + [DigitChar(n % 10)]
  }

  /** `String(i)` for any integer: a leading `-` for negative values. */
  function IntToString(i: int): string {
    if i < 0 then "-" + NatToString(-i) else NatToString(i)
  }

  /** `String(x)`: NaN prints as the three letters `NaN`. */
  function NumberToString(x: JsNumber): string {
    match x
    case Num(n) => IntToString(n)
    case NaN => "NaN"
  }

  function Repeat(c: char, k: nat): string {
    if k == 0 then "" else [c] + Repeat(c, k - 1)
  }

  /** `s.padStart(width, fill)` with a one-character fill. */
  function PadStart(s: string, width: nat, fill: char): string {
    if |s| >= width then s else Repeat(fill, width - |s|) + s
  }

  /** `String(n).padStart(2, '0')`, the padding every date and clock field gets. */
  function Pad2(n: int): string {
    PadStart(IntToString(n), 2, '0')
  }

  /** `s.split(sep)` with a one-character separator: the pieces between separators,
      empty ones included, and always at least one. */
  function Split(s: string, sep: char): (parts: seq<string>)
    ensures |parts| >= 1
  {
    if s == [] then [""]
    else
      var rest := Split(s[1..], sep);
      if s[0] == sep then [""] + rest
      else [[s[0]] + rest[0]] + rest[1..]
  }

  /** `parts.join(sep)`. */
  function Join(parts: seq<string>, sep: char): string
    requires |parts| >= 1
  {
    if |parts| == 1 then parts[0] else parts[0] + [sep] + Join(parts[1..], sep)
  }

  /** `Number(s)` on what `split('-')` can hand it: the empty string is 0, a run
      of digits is its decimal value, anything else is NaN. */
  function NumberOf(s: string): JsNumber {
    if AllDigits(s) then Num(DigitsValue(s)) else NaN
  }

  // ---------------------------------------------------------------------------
  // Facts about the built-ins, used by the modules that model the source.

  /** `String(n)` of a non-negative number is a digit string that reads back as `n`,
      without a leading zero. */
  lemma {:induction false} NatToStringValue(n: nat)
    ensures var s := NatToString(n);
      |s| >= 1 && AllDigits(s) && DigitsValue(s) == n && (|s| > 1 ==> s[0] != '0')
    decreases n
  {
    if n >= 10 {
      NatToStringValue(n / 10);
      var s := NatToString(n);
      assert s[..|s| - 1] == NatToString(n / 10);
    }
  }

  lemma IntToStringValue(i: int)
    ensures |IntToString(i)| >= 1
    ensures i >= 0 ==> AllDigits(IntToString(i)) && NumberOf(IntToString(i)) == Num(i)
    ensures i < 0 ==> IntToString(i)[0] == '-'
  {
    NatToStringValue(if i < 0 then -i else i);
  }

  lemma {:induction false} RepeatShape(c: char, k: nat)
    ensures |Repeat(c, k)| == k && forall i :: 0 <= i < k ==> Repeat(c, k)[i] == c
  {
    if k > 0 {
      RepeatShape(c, k - 1);
    }
  }

  /** Split's pieces hold no separator, and there is one piece exactly when there is no
      separator. */
  lemma {:induction false} SplitPieces(s: string, sep: char)
    ensures forall i :: 0 <= i < |Split(s, sep)| ==> sep !in Split(s, sep)[i]
    ensures |Split(s, sep)| == 1 <==> sep !in s
  {
    if s != [] {
      SplitPieces(s[1..], sep);
      var rest := Split(s[1..], sep);
      if s[0] != sep {
        assert sep !in [s[0]] + rest[0];
        assert s == [s[0]] + s[1..];
      }
    }
  }

  /** Joining the pieces of a split gives back the original string. */
  lemma {:induction false} JoinSplit(s: string, sep: char)
    ensures Join(Split(s, sep), sep) == s
  {
    if s != [] {
      var rest := Split(s[1..], sep);
      JoinSplit(s[1..], sep);
      if s[0] != sep {
        var parts := Split(s, sep);
        if |rest| == 1 {
          assert parts == [[s[0]] + rest[0]];
        } else {
          assert parts[1..] == rest[1..];
          assert Join(rest, sep) == rest[0] + [sep] + Join(rest[1..], sep);
          assert Join(parts, sep) == [s[0]] + rest[0] + [sep] + Join(rest[1..], sep);
        }
      }
    }
  }

  /** A string without the separator is one piece. */
  lemma {:induction false} SplitNoSep(a: string, sep: char)
    requires sep !in a
    ensures Split(a, sep) == [a]
  {
    SplitPieces(a, sep);
    JoinSplit(a, sep);
  }

  /** A separator right after a separator-free prefix cuts exactly there. */
  lemma {:induction false} SplitAfter(a: string, b: string, sep: char)
    requires sep !in a
    ensures Split(a + [sep] + b, sep) == [a] + Split(b, sep)
  {
    if a == [] {
      assert a + [sep] + b == [sep] + b;
      assert ([sep] + b)[1..] == b;
    } else {
      SplitAfter(a[1..], b, sep);
      assert (a + [sep] + b)[1..] == a[1..] + [sep] + b;
      assert [a[0]] + a[1..] == a;
    }
  }

  /** Three separator-free pieces joined by the separator split back into themselves. */
  lemma SplitThree(a: string, b: string, c: string, sep: char)
    requires sep !in a && sep !in b && sep !in c
    ensures Split(a + [sep] + b + [sep] + c, sep) == [a, b, c]
  {
    SplitAfter(b, c, sep);
    SplitNoSep(c, sep);
    assert a + [sep] + b + [sep] + c == a + [sep] + (b + [sep] + c);
    SplitAfter(a, b + [sep] + c, sep);
  }

  lemma Join3(a: string, b: string, c: string, sep: char)
    ensures Join([a, b, c], sep) == a + [sep] + b + [sep] + c
  {
    assert [a, b, c][1..] == [b, c];
    assert [b, c][1..] == [c];
    assert Join([b, c], sep) == b + [sep] + c;
    assert Join([a, b, c], sep) == a + [sep] + (b + [sep] + c);
  }

  lemma {:induction false} LeadingZerosIgnored(z: string, s: string)
    requires forall i :: 0 <= i < |z| ==> z[i] == '0'
    ensures DigitsValue(z + s) == DigitsValue(s)
    decreases |s|
  {
    if s == [] {
      assert z + s == z;
      ZerosValue(z);
    } else {
      assert (z + s)[..|z + s| - 1] == z + s[..|s| - 1];
      LeadingZerosIgnored(z, s[..|s| - 1]);
    }
  }

  lemma {:induction false} ZerosValue(z: string)
    requires forall i :: 0 <= i < |z| ==> z[i] == '0'
    ensures DigitsValue(z) == 0
  {
    if z != [] {
      ZerosValue(z[..|z| - 1]);
    }
  }

  /** Padding a non-negative number keeps it a digit string with the same value. */
  lemma PaddedNumber(n: int, width: nat)
    requires n >= 0
    ensures AllDigits(PadStart(IntToString(n), width, '0'))
    ensures NumberOf(PadStart(IntToString(n), width, '0')) == Num(n)
  {
    var s := IntToString(n);
    IntToStringValue(n);
    if |s| < width {
      var z := Repeat('0', width - |s|);
      RepeatShape('0', width - |s|);
      LeadingZerosIgnored(z, s);
      var r := z + s;
      assert forall i :: 0 <= i < |r| ==> IsDigit(r[i]) by {
        forall i | 0 <= i < |r| ensures IsDigit(r[i]) {
          if i >= |z| { assert r[i] == s[i - |z|]; }
        }
      }
    }
  }

  /** Below 100, `String(n).padStart(2, '0')` is the two decimal digits of `n`. */
  lemma Pad2Digits(n: int)
    requires 0 <= n < 100
    ensures Pad2(n) == [DigitChar(n / 10), DigitChar(n % 10)]
  {
    if n >= 10 {
      assert NatToString(n) == NatToString(n / 10) + [DigitChar(n % 10)];
    } else {
      assert Repeat('0', 1) == ['0'];
    }
  }

  /** A number printed by `String` and split on `-` stays one piece when it is not negative. */
  lemma NoDashInNumber(x: JsNumber)
    requires x.NaN? || x.n >= 0
    ensures '-' !in NumberToString(x)
    ensures '-' !in PadStart(NumberToString(x), 2, '0')
    ensures NumberOf(NumberToString(x)) == x
    ensures NumberOf(PadStart(NumberToString(x), 2, '0')) == x
  {
    var s := NumberToString(x);
    if x.NaN? {
      assert !IsDigit(s[0]);
      assert PadStart(s, 2, '0') == s;
    } else {
      IntToStringValue(x.n);
      PaddedNumber(x.n, 2);
      var r := PadStart(s, 2, '0');
      assert forall i :: 0 <= i < |r| ==> IsDigit(r[i]);
      assert forall i :: 0 <= i < |s| ==> IsDigit(s[i]);
    }
  }
}
