/** The JavaScript text and date primitives the commerce repositories rely
    on: `padStart` with zeros, `parseInt(s, 10)`, `split` on one character,
    and the calendar date part of `Date.prototype.toISOString` (section
    21.4.4.36 of ECMA-262, with its date-time string format of section
    21.4.1.32). */
module JsText {
  import opened Common

  /** `"0".repeat(n)`. */
  function Zeros(n: nat): (r: string)
    ensures |r| == n
    ensures forall i :: 0 <= i < n ==> r[i] == '0'
  {
    if n == 0 then "" else Zeros(n - 1) + "0"
  }

  /** `s.padStart(width, "0")`: zeros in front up to `width` characters; a
      longer string is left alone. */
  function PadStart(s: string, width: nat): (r: string)
    ensures |r| == MaxInt(|s|, width)
    ensures r[|r| - |s|..] == s
    ensures forall i :: 0 <= i < |r| - |s| ==> r[i] == '0'
  {
    if |s| >= width then s else Zeros(width - |s|) + s
  }

  predicate AllDigits(s: string)
  {
    forall i :: 0 <= i < |s| ==> IsDigit(s[i])
  }

  /** The number a string of decimal digits denotes. */
  function DigitsValue(s: string): (n: nat)
    requires AllDigits(s)
  {
    if |s| == 0 then 0
    else DigitsValue(s[..|s| - 1]) * 10 + (s[|s| - 1] as int - '0' as int)
  }

  /** The longest run of digits `s` starts with. */
  function LeadingDigits(s: string): (r: string)
    ensures |r| <= |s| && AllDigits(r) && r == s[..|r|]
    ensures |r| < |s| ==> !IsDigit(s[|r|])
  {
    if |s| == 0 || !IsDigit(s[0]) then "" else [s[0]] + LeadingDigits(s[1..])
  }

  /** `parseInt(s, 10)`: leading white space and one sign are skipped and
      the digits that follow are read; with no digit the result is `NaN`
      (`None`). */
  function ParseInt(s: string): (r: Option<int>)
  {
    var t := TrimStart(s);
    var signed := |t| > 0 && (t[0] == '+' || t[0] == '-');
    var digits := LeadingDigits(if signed then t[1..] else t);
    if |digits| == 0 then None
    else if signed && t[0] == '-' then Some(-(DigitsValue(digits) as int))
    else Some(DigitsValue(digits))
  }

  /** Leading zeros do not change the value. */
  lemma {:induction false} DigitsValueZeros(k: nat, s: string)
    requires AllDigits(s)
    ensures AllDigits(Zeros(k) + s)
    ensures DigitsValue(Zeros(k) + s) == DigitsValue(s)
    decreases |s|
  {
    var z := Zeros(k) + s;
    assert AllDigits(z) by {
      forall i | 0 <= i < |z| ensures IsDigit(z[i]) {
        if i >= k {
          assert z[i] == s[i - k];
        }
      }
    }
    if |s| == 0 {
      assert z == Zeros(k);
      ZerosValue(k);
    } else {
      var n := |s| - 1;
      assert z[..|z| - 1] == Zeros(k) + s[..n];
      DigitsValueZeros(k, s[..n]);
    }
  }

  lemma {:induction false} ZerosValue(k: nat)
    ensures AllDigits(Zeros(k)) && DigitsValue(Zeros(k)) == 0
  {
    if k > 0 {
      ZerosValue(k - 1);
      assert Zeros(k)[..k - 1] == Zeros(k - 1);
    }
  }

  /** Reading back a rendered number gives the number. */
  lemma {:induction false} DigitsValueOfNat(n: nat)
    ensures AllDigits(NatToString(n)) && DigitsValue(NatToString(n)) == n
    decreases n
  {
    if n >= 10 {
      DigitsValueOfNat(n / 10);
      var s := NatToString(n);
      assert s[..|s| - 1] == NatToString(n / 10);
    }
  }

  /** A string of digits reads back as its value. */
  lemma ParseIntDigits(s: string)
    requires |s| > 0 && AllDigits(s)
    ensures ParseInt(s) == Some(DigitsValue(s))
  {
    assert !IsSpace(s[0]);
    assert TrimStart(s) == s;
    assert !(s[0] == '+' || s[0] == '-');
    LeadingDigitsAll(s);
  }

  lemma {:induction false} LeadingDigitsAll(s: string)
    requires AllDigits(s)
    ensures LeadingDigits(s) == s
  {
    if |s| > 0 {
      LeadingDigitsAll(s[1..]);
    }
  }

  /** `padStart(String(n), w, "0")` reads back as `n`: the round trip the
      batch sequence relies on. */
  lemma PaddedNumberRoundTrip(n: nat, width: nat)
    ensures AllDigits(PadStart(NatToString(n), width))
    ensures ParseInt(PadStart(NatToString(n), width)) == Some(n)
  {
    DigitsValueOfNat(n);
    PaddedDigitsRoundTrip(NatToString(n), width);
  }

  /** Zero-padding a string of digits keeps its value. */
  lemma PaddedDigitsRoundTrip(s: string, width: nat)
    requires |s| > 0 && AllDigits(s)
    ensures AllDigits(PadStart(s, width))
    ensures ParseInt(PadStart(s, width)) == Some(DigitsValue(s))
  {
    if |s| >= width {
      ParseIntDigits(s);
    } else {
      DigitsValueZeros(width - |s|, s);
      ParseIntDigits(Zeros(width - |s|) + s);
    }
  }

  predicate IsHexDigit(c: char)
  {
    '0' <= c <= '9' || 'a' <= c <= 'f' || 'A' <= c <= 'F'
  }

  /** `isUUID` with no version given: 8-4-4-4-12 hexadecimal digits
      separated by dashes, in either case. */
  predicate IsUuid(s: string)
  {
    |s| == 36
    && forall i :: 0 <= i < 36 ==> if i in {8, 13, 18, 23} then s[i] == '-' else IsHexDigit(s[i])
  }

  /** `String(n)`: the decimal digits, after a minus sign when negative. */
  function IntToString(n: int): string
  {
    if n < 0 then "-" + NatToString(-n) else NatToString(n)
  }

  /** `s.split(c)`: the pieces between the occurrences of `c`. */
  function SplitOn(s: string, c: char): (r: seq<string>)
    ensures |r| >= 1
  {
    if |s| == 0 then [""]
    else
      var rest := SplitOn(s[1..], c);
      if s[0] == c then [""] + rest else [[s[0]] + rest[0]] + rest[1..]
  }

  /** A string without the separator is a single piece. */
  lemma {:induction false} SplitOnNone(s: string, c: char)
    requires c !in s
    ensures SplitOn(s, c) == [s]
  {
    if |s| > 0 {
      SplitOnNone(s[1..], c);
      assert [s[0]] + s[1..] == s;
    }
  }

  /** A piece free of the separator, followed by the separator, comes off
      as the first piece. */
  lemma {:induction false} SplitOnFirst(a: string, c: char, b: string)
    requires c !in a
    ensures SplitOn(a + [c] + b, c) == [a] + SplitOn(b, c)
  {
    if |a| == 0 {
      assert a + [c] + b == [c] + b;
      assert ([c] + b)[1..] == b;
    } else {
      assert (a + [c] + b)[1..] == a[1..] + [c] + b;
      SplitOnFirst(a[1..], c, b);
      assert [a[0]] + a[1..] == a;
    }
  }

  /** A calendar date of the proleptic Gregorian calendar. */
  datatype CivilDate = CivilDate(year: int, month: int, day: int)

  /** The calendar date of the day `days` after 1970-01-01. The day count is
      shifted to start at 0000-03-01 and split into 400-year eras, centuries,
      four-year cycles and years that start in March (so the leap day ends
      each year that has one); month and day are read off the day of that
      year. */
  function CivilFromDays(days: int): (r: CivilDate)
    ensures 1 <= r.month <= 12 && 1 <= r.day <= 31
  {
    var z := days + 719468;
    var era := z / 146097;
    var doe := z % 146097;
    var century := MinInt(doe / 36524, 3);
    var r1 := doe - 36524 * century;
    assert 0 <= r1 <= 36524;
    var cycle := r1 / 1461;
    var r2 := r1 % 1461;
    var yoc := MinInt(r2 / 365, 3);
    var doy := r2 - 365 * yoc;
    assert 0 <= doy <= 365;
    var mp := (5 * doy + 2) / 153;
    assert 0 <= mp <= 11;
    var d := doy - (153 * mp + 2) / 5 + 1;
    assert 1 <= d <= 31 by {
      assert 153 * mp <= 5 * doy + 2 < 153 * mp + 153;
    }
    var m := if mp < 10 then mp + 3 else mp - 9;
    var y := 400 * era + 100 * century + 4 * cycle + yoc + (if m <= 2 then 1 else 0);
    CivilDate(y, m, d)
  }

  function Pow10(k: nat): (r: nat)
    ensures r >= 1
  {
    if k == 0 then 1 else 10 * Pow10(k - 1)
  }

  /** A number below `10^k` takes at most `k` digits. */
  lemma {:induction false} NatToStringLength(n: nat, k: nat)
    requires 1 <= k && n < Pow10(k)
    ensures |NatToString(n)| <= k
    decreases k
  {
    if n >= 10 {
      NatToStringLength(n / 10, k - 1);
    }
  }

  /** `String(n).padStart(width, "0")` for a number that fits the width. */
  function FixedDigits(n: nat, width: nat): (r: string)
    requires 1 <= width && n < Pow10(width)
    ensures |r| == width && AllDigits(r)
  {
    NatToStringLength(n, width);
    PaddedNumberRoundTrip(n, width);
    PadStart(NatToString(n), width)
  }

  lemma Pow10Values()
    ensures Pow10(2) == 100 && Pow10(4) == 10000
  {
    assert Pow10(1) == 10;
    assert Pow10(3) == 1000;
  }

  /** `date.toISOString().slice(0, 10).replace(/-/g, "")` for the instant
      `t` (minutes): `YYYYMMDD` for years 0 to 9999. Outside that range the
      expanded year format (a sign and six year digits) shifts the slice, so
      the sign (`+` only, as the `-` is removed), six year digits and the
      month remain. */
  function IsoDateStamp(t: int): (r: string)
    ensures '-' !in r
    ensures 0 <= CivilFromDays(t / 1440).year <= 9999 ==> |r| == 8 && AllDigits(r)
  {
    var date := CivilFromDays(t / 1440);
    Pow10Values();
    var month := FixedDigits(date.month, 2);
    if 0 <= date.year <= 9999 then BasicStamp(date.year, month, date.day)
    else ExpandedStamp(date.year, month)
  }

  function BasicStamp(year: nat, month: string, day: nat): (r: string)
    requires year < 10000 && 1 <= day <= 31 && |month| == 2 && AllDigits(month)
    ensures |r| == 8 && AllDigits(r) && '-' !in r
  {
    Pow10Values();
    var y, d := FixedDigits(year, 4), FixedDigits(day, 2);
    AllDigitsConcat(y, month);
    AllDigitsConcat(y + month, d);
    AllDigitsNoDash(y + month + d);
    y + month + d
  }

  function ExpandedStamp(year: int, month: string): (r: string)
    requires AllDigits(month)
    ensures '-' !in r
  {
    var y := PadStart(NatToString(if year < 0 then -year else year), 6);
    PaddedNumberRoundTrip(if year < 0 then -year else year, 6);
    AllDigitsConcat(y, month);
    AllDigitsNoDash(y + month);
    if year < 0 then y + month else "+" + (y + month)
  }

  lemma AllDigitsConcat(a: string, b: string)
    requires AllDigits(a) && AllDigits(b)
    ensures AllDigits(a + b)
  {
    forall i | 0 <= i < |a + b| ensures IsDigit((a + b)[i]) {
      if i >= |a| {
        assert (a + b)[i] == b[i - |a|];
      }
    }
  }

  lemma AllDigitsNoDash(a: string)
    requires AllDigits(a)
    ensures '-' !in a
  {
  }

  /** Instants of the same UTC day give the same stamp. */
  lemma IsoDateStampSameDay(t: int, u: int)
    requires t - t % 1440 == u - u % 1440
    ensures IsoDateStamp(t) == IsoDateStamp(u)
  {
    assert t / 1440 == u / 1440;
  }
}
