/** The status page's "time since last switch": a millisecond count split
    into days, hours, minutes and seconds and rendered as "<d>d <h>h <m>m <s>s". */
module Duration {
  import opened Optional

  const MS_PER_DAY: nat := 86400000
  const MS_PER_HOUR: nat := 3600000
  const MS_PER_MIN: nat := 60000
  const MS_PER_SEC: nat := 1000

  datatype Dhms = Dhms(days: nat, hours: nat, minutes: nat, seconds: nat)

  /** The millisecond count the fields stand for, leftover milliseconds excluded. */
  function Millis(r: Dhms): nat
  {
    r.days * MS_PER_DAY + r.hours * MS_PER_HOUR + r.minutes * MS_PER_MIN + r.seconds * MS_PER_SEC
  }

  /** The division cascade: whole days, then hours, minutes and seconds of
      what remains; the last partial second is dropped. */
  function Split(ms: nat): (r: Dhms)
    ensures r.hours < 24 && r.minutes < 60 && r.seconds < 60
    ensures Millis(r) <= ms < Millis(r) + MS_PER_SEC
  {
    var days := ms / MS_PER_DAY;
    var afterDays := ms % MS_PER_DAY;
    var hours := afterDays / MS_PER_HOUR;
    var afterHours := afterDays % MS_PER_HOUR;
    var minutes := afterHours / MS_PER_MIN;
    var afterMinutes := afterHours % MS_PER_MIN;
    Dhms(days, hours, minutes, afterMinutes / MS_PER_SEC)
  }

  /** The split is the only one with hours, minutes and seconds in range
      that accounts for the count to the second. */
  lemma SplitUnique(ms: nat, r: Dhms)
    requires r.hours < 24 && r.minutes < 60 && r.seconds < 60
    requires Millis(r) <= ms < Millis(r) + MS_PER_SEC
    ensures r == Split(ms)
  {
    var rest := ms - Millis(r);
    var s := r.seconds * MS_PER_SEC + rest;
    var m := r.minutes * MS_PER_MIN + s;
    var h := r.hours * MS_PER_HOUR + m;
    assert ms == r.days * MS_PER_DAY + h && h < MS_PER_DAY;
    assert r.days == ms / MS_PER_DAY && h == ms % MS_PER_DAY;
    assert r.hours == h / MS_PER_HOUR && m == h % MS_PER_HOUR;
    assert r.minutes == m / MS_PER_MIN && s == m % MS_PER_MIN;
    assert r.seconds == s / MS_PER_SEC;
  }

  predicate IsDigit(c: char)
  {
    '0' <= c <= '9'
  }

  function DigitChar(d: nat): (c: char)
    requires d < 10
    ensures IsDigit(c)
  {
    (d + '0' as int) as char
  }

  function DigitValue(c: char): nat
    requires IsDigit(c)
  {
    c as int - '0' as int
  }

  /** Decimal text of a number, as the firmware's String(n) gives it: no
      sign, no leading zeros. */
  function NatToDecimal(n: nat): (s: string)
    ensures |s| > 0 && forall i :: 0 <= i < |s| ==> IsDigit(s[i])
    ensures s[0] == '0' ==> n == 0
  {
    if n < 10 then [DigitChar(n)] else NatToDecimal(n / 10) + [DigitChar(n % 10)]
  }

  /** Value of a string of decimal digits. */
  function DecimalValue(s: string): nat
    requires forall i :: 0 <= i < |s| ==> IsDigit(s[i])
  {
    if s == [] then 0 else DecimalValue(s[..|s| - 1]) * 10 + DigitValue(s[|s| - 1])
  }

  /** Reading the decimal text back gives the number. */
  lemma {:induction false} DecimalRoundTrip(n: nat)
    ensures DecimalValue(NatToDecimal(n)) == n
  {
    if n >= 10 {
      var s := NatToDecimal(n);
      assert s[..|s| - 1] == NatToDecimal(n / 10);
      DecimalRoundTrip(n / 10);
    }
  }

  /** The number of leading decimal digits. */
  function LeadingDigits(s: string): (k: nat)
    ensures k <= |s|
    ensures forall i :: 0 <= i < k ==> IsDigit(s[i])
    ensures k < |s| ==> !IsDigit(s[k])
  {
    if s == [] || !IsDigit(s[0]) then 0 else 1 + LeadingDigits(s[1..])
  }

  lemma {:induction false} LeadingDigitsOf(digits: string, rest: string)
    requires forall i :: 0 <= i < |digits| ==> IsDigit(digits[i])
    requires rest == [] || !IsDigit(rest[0])
    ensures LeadingDigits(digits + rest) == |digits|
    decreases |digits|
  {
    if digits != [] {
      assert (digits + rest)[1..] == digits[1..] + rest;
      LeadingDigitsOf(digits[1..], rest);
    }
  }

  /** Reads one field: a non-empty run of digits followed by `unit`. */
  function ParseField(s: string, unit: string): Option<(nat, string)>
  {
    var k := LeadingDigits(s);
    if 0 < k && k + |unit| <= |s| && s[k..k + |unit|] == unit
    then Some((DecimalValue(s[..k]), s[k + |unit|..]))
    else None
  }

  /** Reads "<d>d <h>h <m>m <s>s" back into its four numbers. */
  function ParseDhms(s: string): Option<Dhms>
  {
    match ParseField(s, "d ")
    case None => None
    case Some((d, s1)) =>
      match ParseField(s1, "h ")
      case None => None
      case Some((h, s2)) =>
        match ParseField(s2, "m ")
        case None => None
        case Some((m, s3)) =>
          match ParseField(s3, "s")
          case None => None
          case Some((sec, s4)) => if s4 == [] then Some(Dhms(d, h, m, sec)) else None
  }

  lemma ParseFieldOf(n: nat, unit: string, rest: string)
    requires |unit| > 0 && !IsDigit(unit[0])
    ensures ParseField(NatToDecimal(n) + unit + rest, unit) == Some((n, rest))
  {
    var digits := NatToDecimal(n);
    var s := digits + unit + rest;
    assert s == digits + (unit + rest);
    LeadingDigitsOf(digits, unit + rest);
    assert s[..|digits|] == digits;
    assert s[|digits|..|digits| + |unit|] == unit;
    assert s[|digits| + |unit|..] == rest;
    DecimalRoundTrip(n);
  }

  /** The four fields, each in decimal followed by its unit. */
  function Format(r: Dhms): string
  {
    NatToDecimal(r.days) + "d " + NatToDecimal(r.hours) + "h " +
    NatToDecimal(r.minutes) + "m " + NatToDecimal(r.seconds) + "s"
  }

  /** The rendered text reads back as the same four numbers. */
  lemma FormatParses(r: Dhms)
    ensures ParseDhms(Format(r)) == Some(r)
  {
    var d, h, m, s := NatToDecimal(r.days), NatToDecimal(r.hours), NatToDecimal(r.minutes), NatToDecimal(r.seconds);
    var t3 := s + "s";
    var t2 := m + "m " + t3;
    var t1 := h + "h " + t2;
    assert Format(r) == d + "d " + t1;
    ParseFieldOf(r.days, "d ", t1);
    ParseFieldOf(r.hours, "h ", t2);
    ParseFieldOf(r.minutes, "m ", t3);
    ParseFieldOf(r.seconds, "s", []);
    assert s + "s" + [] == t3;
  }

  /** `msToDhms`: the text of the split of `ms`; it reads back as days,
      hours, minutes and seconds with the bounds and the decomposition of
      Split. */
  function MsToDhms(ms: nat): (text: string)
    ensures ParseDhms(text) == Some(Split(ms))
  {
    FormatParses(Split(ms));
    Format(Split(ms))
  }
}
