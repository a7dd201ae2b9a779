/**
 String helpers the program gets from Rust's standard library: `str::split`
 on one character and `join`, and the decimal and hexadecimal digit strings
 that IP addresses are printed with and parsed from.
 */
module Text {
  import opened Base

  /** Rust's `s.split(sep)`: the pieces between occurrences of `sep`, in order.
      The empty string splits into one empty piece. */
  function Split(s: string, sep: char): (parts: seq<string>)
    ensures |parts| >= 1
    ensures forall i :: 0 <= i < |parts| ==> sep !in parts[i]
    decreases |s|
  {
    if |s| == 0 then [""]
    else
      var rest := Split(s[1..], sep);
      if s[0] == sep then [""] + rest
      else [[s[0]] + rest[0]] + rest[1..]
  }

  /** Rust's `parts.join(sep)` */
  function Join(parts: seq<string>, sep: char): string
  {
    if |parts| == 0 then ""
    else if |parts| == 1 then parts[0]
    else parts[0] + [sep] + Join(parts[1..], sep)
  }

  /** Joining the pieces of a split gives back the string. */
  lemma {:induction false} JoinSplit(s: string, sep: char)
    ensures Join(Split(s, sep), sep) == s
    decreases |s|
  {
    if |s| > 0 {
      var rest := Split(s[1..], sep);
      JoinSplit(s[1..], sep);
      if s[0] == sep {
        assert Split(s, sep) == [""] + rest;
        calc {
          Join([""] + rest, sep);
          "" + [sep] + Join(rest, sep);
          [s[0]] + s[1..];
        }
      } else if |rest| == 1 {
        assert Split(s, sep) == [[s[0]] + rest[0]];
        assert Join(rest, sep) == rest[0];
      } else {
        assert Join(rest, sep) == rest[0] + [sep] + Join(rest[1..], sep);
        var parts := [[s[0]] + rest[0]] + rest[1..];
        assert parts[1..] == rest[1..];
        assert Join(parts, sep) == [s[0]] + rest[0] + [sep] + Join(rest[1..], sep);
      }
    }
  }

  /** Splitting a join gives back the pieces, provided none contains the
      separator: the separator-free pieces are exactly recovered. */
  lemma {:induction false} SplitJoin(parts: seq<string>, sep: char)
    requires |parts| >= 1
    requires forall i :: 0 <= i < |parts| ==> sep !in parts[i]
    ensures Split(Join(parts, sep), sep) == parts
    decreases |parts|, |parts[0]|
  {
    var p := parts[0];
    if |parts| == 1 {
      SplitNoSeparator(p, sep);
    } else if |p| == 0 {
      var tail := Join(parts[1..], sep);
      assert Join(parts, sep) == [sep] + tail;
      assert ([sep] + tail)[1..] == tail;
      SplitJoin(parts[1..], sep);
      assert parts == [""] + parts[1..];
    } else {
      var shorter := [p[1..]] + parts[1..];
      assert shorter[1..] == parts[1..];
      assert forall i :: 0 <= i < |shorter| ==> sep !in shorter[i] by {
        assert forall c :: c in p[1..] ==> c in p;
      }
      SplitJoin(shorter, sep);
      var s := Join(parts, sep);
      assert s == [p[0]] + Join(shorter, sep);
      assert p[0] in p;
      assert s[0] == p[0] && s[0] != sep;
      assert s[1..] == Join(shorter, sep);
      assert [p[0]] + p[1..] == p;
      assert [[p[0]] + p[1..]] + parts[1..] == parts;
    }
  }

  /** A string without the separator splits into itself alone. */
  lemma {:induction false} SplitNoSeparator(s: string, sep: char)
    requires sep !in s
    ensures Split(s, sep) == [s]
    decreases |s|
  {
    if |s| > 0 {
      assert sep !in s[1..] by {
        assert forall c :: c in s[1..] ==> c in s;
      }
      SplitNoSeparator(s[1..], sep);
      assert [s[0]] + s[1..] == s;
    }
  }

  /** A character of a join is a separator or a character of some piece. */
  lemma {:induction false} JoinChars(parts: seq<string>, sep: char, c: char)
    requires c in Join(parts, sep)
    ensures c == sep || exists i :: 0 <= i < |parts| && c in parts[i]
    decreases |parts|
  {
    if |parts| > 1 {
      var tail := Join(parts[1..], sep);
      assert Join(parts, sep) == parts[0] + [sep] + tail;
      if c in parts[0] {
      } else if c != sep {
        assert c in tail;
        JoinChars(parts[1..], sep, c);
        var i :| 0 <= i < |parts[1..]| && c in parts[1..][i];
        assert c in parts[i + 1];
      }
    }
  }

  /** True when `s` holds two adjacent copies of `c` */
  predicate HasDouble(s: string, c: char) {
    exists i :: 0 <= i < |s| - 1 && s[i] == c && s[i + 1] == c
  }

  /** Index of the first pair of adjacent `c`s, if any */
  function FindDouble(s: string, c: char): (r: Option<nat>)
    ensures r.None? <==> !HasDouble(s, c)
    ensures r.Some? ==> r.value < |s| - 1 && s[r.value] == c && s[r.value + 1] == c
    ensures r.Some? ==> !HasDouble(s[..r.value + 1], c)
    decreases |s|
  {
    if |s| < 2 then None
    else if s[0] == c && s[1] == c then Some(0)
    else
      match FindDouble(s[1..], c)
      case None =>
        assert !HasDouble(s, c) by {
          forall i | 0 <= i < |s| - 1 && s[i] == c
            ensures s[i + 1] != c
          {
            if i > 0 {
              assert s[1..][i - 1] == s[i] && s[1..][i] == s[i + 1];
            }
          }
        }
        None
      case Some(k) =>
        assert s[..k + 2] == [s[0]] + s[1..][..k + 1];
        Some(k + 1)
  }

  /** A join of non-empty separator-free pieces never holds two adjacent separators. */
  lemma {:induction false} JoinHasNoDouble(parts: seq<string>, sep: char)
    requires forall i :: 0 <= i < |parts| ==> |parts[i]| > 0 && sep !in parts[i]
    ensures !HasDouble(Join(parts, sep), sep)
    decreases |parts|
  {
    if |parts| > 1 {
      var head := parts[0];
      var tail := Join(parts[1..], sep);
      JoinHasNoDouble(parts[1..], sep);
      var s := Join(parts, sep);
      assert s == head + [sep] + tail;
      assert |tail| > 0 && tail[0] != sep by {
        JoinFirstChar(parts[1..], sep);
        assert parts[1][0] in parts[1];
      }
      forall i | 0 <= i < |s| - 1
        ensures !(s[i] == sep && s[i + 1] == sep)
      {
        if i < |head| {
          assert s[i] == head[i] && head[i] in head;
        } else if i == |head| {
          assert s[i + 1] == tail[0];
        } else {
          assert s[i] == tail[i - |head| - 1] && s[i + 1] == tail[i - |head|];
        }
      }
    }
  }

  /** A join of non-empty separator-free pieces does not start with the separator. */
  lemma {:induction false} JoinFirstChar(parts: seq<string>, sep: char)
    requires |parts| >= 1
    requires forall i :: 0 <= i < |parts| ==> |parts[i]| > 0 && sep !in parts[i]
    ensures |Join(parts, sep)| > 0 && Join(parts, sep)[0] == parts[0][0]
  {
    if |parts| > 1 {
      assert Join(parts, sep) == parts[0] + [sep] + Join(parts[1..], sep);
    }
  }

  // ---------------------------------------------------------------------
  // Digits
  // ---------------------------------------------------------------------

  /** The lower-case digit character for `d` in bases up to 16 */
  function DigitChar(d: nat): (c: char)
    requires d < 16
    ensures DigitValue(c) == Some(d)
    ensures '0' <= c <= '9' || 'a' <= c <= 'f'
  {
    if d < 10 then (48 + d) as char else (87 + d) as char
  }

  /** Rust's `char::to_digit(16)`: upper- and lower-case hex digits */
  function DigitValue(c: char): (d: Option<nat>)
    ensures d.Some? ==> d.value < 16
    ensures d.Some? && d.value < 10 <==> '0' <= c <= '9'
  {
    if '0' <= c <= '9' then Some(c as nat - 48)
    else if 'a' <= c <= 'f' then Some(c as nat - 87)
    else if 'A' <= c <= 'F' then Some(c as nat - 55)
    else None
  }

  predicate IsDigitIn(c: char, base: nat) {
    DigitValue(c).Some? && DigitValue(c).value < base
  }

  /** Every character of `s` is a digit of `base` */
  predicate AllDigits(s: string, base: nat) {
    forall i :: 0 <= i < |s| ==> IsDigitIn(s[i], base)
  }

  /** The number the digit string `s` denotes in `base`, most significant first */
  function ValueOf(s: string, base: nat): nat
    requires AllDigits(s, base)
  {
    if |s| == 0 then 0
    else ValueOf(s[..|s| - 1], base) * base + DigitValue(s[|s| - 1]).value
  }

  /** The shortest digit string of `n` in `base` (Rust's `Display`, or `{:x}` in base 16) */
  function Digits(n: nat, base: nat): (s: string)
    requires IsRadix(base)
    ensures |s| >= 1
    ensures AllDigits(s, base)
    decreases n
  {
    if n < base then [DigitChar(n)]
    else
      var init := Digits(n / base, base);
      var s := init + [DigitChar(n % base)];
      assert forall i :: 0 <= i < |init| ==> s[i] == init[i];
      s
  }

  /** Reading back printed digits gives the number. */
  lemma {:induction false} DigitsValue(n: nat, base: nat)
    requires IsRadix(base)
    ensures ValueOf(Digits(n, base), base) == n
    decreases n
  {
    if n >= base {
      var s := Digits(n, base);
      DigitsValue(n / base, base);
      DivMod(n, base);
      assert s[..|s| - 1] == Digits(n / base, base);
    }
  }

  /** Printed digits have no leading zero. */
  lemma {:induction false} DigitsNoLeadingZero(n: nat, base: nat)
    requires IsRadix(base)
    ensures |Digits(n, base)| > 1 ==> Digits(n, base)[0] != '0'
    decreases n
  {
    if n >= base {
      DigitsNoLeadingZero(n / base, base);
      if n / base < base {
        assert Digits(n / base, base) == [DigitChar(n / base)];
      }
    }
  }

  /** Printed digits are as short as the bound on the number allows. */
  lemma {:induction false} DigitsLength(n: nat, base: nat, k: nat)
    requires IsRadix(base) && k >= 1 && n < Power(base, k)
    ensures |Digits(n, base)| <= k
    decreases k
  {
    if n >= base {
      assert k >= 2;
      assert Power(base, k) == Power(base, k - 1) * base;
      DivBelow(n, Power(base, k - 1), base);
      DigitsLength(n / base, base, k - 1);
    }
  }

  function Power(b: nat, k: nat): nat {
    if k == 0 then 1 else b * Power(b, k - 1)
  }

  /** A digit string without a leading zero is the printed form of its value:
      the decimal text of a number is unique. */
  lemma {:induction false} CanonicalDigits(s: string, base: nat)
    requires base == 10
    requires |s| >= 1 && AllDigits(s, base)
    requires |s| > 1 ==> s[0] != '0'
    ensures Digits(ValueOf(s, base), base) == s
    decreases |s|
  {
    var last := DigitValue(s[|s| - 1]).value;
    if |s| == 1 {
      assert ValueOf(s[..0], base) == 0;
      assert Digits(last, base) == [DigitChar(last)];
    } else {
      var init := s[..|s| - 1];
      assert AllDigits(init, base);
      ValueAtLeastFirst(init, base);
      assert DigitValue(init[0]).value != 0;
      CanonicalDigits(init, base);
      var n := ValueOf(s, base);
      assert n == ValueOf(init, base) * base + last;
      DivModOf(ValueOf(init, base), last, base);
      assert n / base == ValueOf(init, base) && n % base == last;
      assert n >= base by { MulAtLeast(ValueOf(init, base), base); }
      assert init + [s[|s| - 1]] == s;
    }
  }

  /** A digit string's value is at least its first digit. */
  lemma {:induction false} ValueAtLeastFirst(s: string, base: nat)
    requires IsRadix(base)
    requires |s| >= 1 && AllDigits(s, base)
    ensures ValueOf(s, base) >= DigitValue(s[0]).value
    decreases |s|
  {
    if |s| > 1 {
      var init := s[..|s| - 1];
      assert AllDigits(init, base) && init[0] == s[0];
      ValueAtLeastFirst(init, base);
      MulAtLeast(ValueOf(init, base), base);
    }
  }

  /** A digit string's value is below `base` to the power of its length. */
  lemma {:induction false} ValueBound(s: string, base: nat)
    requires IsRadix(base)
    requires AllDigits(s, base)
    ensures ValueOf(s, base) < Power(base, |s|)
    decreases |s|
  {
    if |s| > 0 {
      var init := s[..|s| - 1];
      assert AllDigits(init, base);
      ValueBound(init, base);
      StepBelow(ValueOf(init, base), Power(base, |init|), DigitValue(s[|s| - 1]).value, base);
    }
  }

  // Arithmetic facts about the two radixes, proved apart so that each proof
  // sees a constant base.

  /** The bases IP addresses are written in */
  predicate IsRadix(base: nat) {
    base == 10 || base == 16
  }

  lemma StepBelow(v: nat, p: nat, d: nat, base: nat)
    requires IsRadix(base) && v < p && d < base
    ensures v * base + d < p * base
  {
    if base == 10 {
      assert v * 10 + d < p * 10;
    } else {
      assert v * 16 + d < p * 16;
    }
  }

  lemma DivBelow(n: nat, p: nat, base: nat)
    requires IsRadix(base) && n < p * base
    ensures n / base < p
  {
    if base == 10 {
      assert n / 10 < p;
    } else {
      assert n / 16 < p;
    }
  }

  lemma MulAtLeast(v: nat, base: nat)
    requires IsRadix(base)
    ensures v * base >= v
    ensures v >= 1 ==> v * base >= base
  {}

  lemma DivMod(n: nat, base: nat)
    requires IsRadix(base)
    ensures n == (n / base) * base + n % base && n % base < base
    ensures n >= base ==> 1 <= n / base < n
  {}

  lemma DivModOf(v: nat, d: nat, base: nat)
    requires IsRadix(base) && d < base
    ensures (v * base + d) / base == v && (v * base + d) % base == d
  {
    if base == 10 {
      assert (v * 10 + d) / 10 == v;
    } else {
      assert (v * 16 + d) / 16 == v;
    }
  }
}
