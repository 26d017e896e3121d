/**
 * Wall-clock times as the validated "HH:MM" strings stored on every activity,
 * their value in minutes since midnight, and the string order the routine sort uses.
 */
module TimeOfDay {

  predicate IsDigit(c: char) {
    '0' <= c <= '9'
  }

  function DigitValue(c: char): (n: nat)
    requires IsDigit(c)
    ensures n < 10
  {
    (c as int) - ('0' as int)
  }

  function DigitChar(n: nat): (c: char)
    requires n < 10
    ensures IsDigit(c) && DigitValue(c) == n
  {
    (('0' as int) + n) as char
  }

  /** The pattern `^(0[0-9]|1[0-9]|2[0-3]):[0-5][0-9]$`: hours 00-23, minutes 00-59. */
  predicate IsValidTime(s: string) {
    && |s| == 5
    && (('0' <= s[0] <= '1' && IsDigit(s[1])) || (s[0] == '2' && '0' <= s[1] <= '3'))
    && s[2] == ':'
    && '0' <= s[3] <= '5'
    && IsDigit(s[4])
  }

  function Hours(s: string): (h: nat)
    requires IsValidTime(s)
    ensures h < 24
  {
    DigitValue(s[0]) * 10 + DigitValue(s[1])
  }

  function MinutePart(s: string): (m: nat)
    requires IsValidTime(s)
    ensures m < 60
  {
    DigitValue(s[3]) * 10 + DigitValue(s[4])
  }

  /** Minutes since midnight of a valid time string; always within one day. */
  function Minutes(s: string): (m: nat)
    requires IsValidTime(s)
    ensures m <= 1439
  {
    Hours(s) * 60 + MinutePart(s)
  }

  /** Renders an hour and a minute as a zero-padded "HH:MM" string. */
  function Format(h: nat, m: nat): (s: string)
    requires h < 24 && m < 60
    ensures IsValidTime(s) && Hours(s) == h && MinutePart(s) == m
    ensures Minutes(s) == 60 * h + m
  {
    [DigitChar(h / 10), DigitChar(h % 10), ':', DigitChar(m / 10), DigitChar(m % 10)]
  }

  lemma DigitRoundTrip(c: char)
    requires IsDigit(c)
    ensures DigitChar(DigitValue(c)) == c
  {
  }

  /** Every valid string is the rendering of its own hours and minutes. */
  lemma {:induction false} FormatRoundTrip(s: string)
    requires IsValidTime(s)
    ensures Format(Minutes(s) / 60, Minutes(s) % 60) == s
  {
    assert Minutes(s) / 60 == Hours(s);
    assert Minutes(s) % 60 == MinutePart(s);
    DigitRoundTrip(s[0]);
    DigitRoundTrip(s[1]);
    DigitRoundTrip(s[3]);
    DigitRoundTrip(s[4]);
    var f := Format(Hours(s), MinutePart(s));
    assert f[0] == s[0] && f[1] == s[1] && f[2] == s[2] && f[3] == s[3] && f[4] == s[4];
  }

  /** The accepted strings are exactly the renderings of the times of one day. */
  lemma {:induction false} ValidTimeIffFormatted(s: string)
    ensures IsValidTime(s) <==> exists h: nat, m: nat :: h < 24 && m < 60 && s == Format(h, m)
  {
    if IsValidTime(s) {
      FormatRoundTrip(s);
      var h, m := Minutes(s) / 60, Minutes(s) % 60;
      assert h < 24 && m < 60 && s == Format(h, m);
    }
  }

  /** Code-unit (lexicographic) order on strings: the order `localeCompare` gives on time strings. */
  predicate LexLe(a: string, b: string)
    decreases |a|
  {
    if a == [] then true
    else if b == [] then false
    else if a[0] < b[0] then true
    else if a[0] > b[0] then false
    else LexLe(a[1..], b[1..])
  }

  lemma {:induction false} LexLeReflexive(a: string)
    ensures LexLe(a, a)
    decreases |a|
  {
    if a != [] {
      LexLeReflexive(a[1..]);
    }
  }

  lemma {:induction false} LexLeTotal(a: string, b: string)
    ensures LexLe(a, b) || LexLe(b, a)
    decreases |a|
  {
    if a != [] && b != [] && a[0] == b[0] {
      LexLeTotal(a[1..], b[1..]);
    }
  }

  lemma {:induction false} LexLeTransitive(a: string, b: string, c: string)
    requires LexLe(a, b) && LexLe(b, c)
    ensures LexLe(a, c)
    decreases |a|
  {
    if a != [] && b != [] && c != [] && a[0] == b[0] && b[0] == c[0] {
      LexLeTransitive(a[1..], b[1..], c[1..]);
    }
  }

  lemma {:induction false} LexLeAntisymmetric(a: string, b: string)
    requires LexLe(a, b) && LexLe(b, a)
    ensures a == b
    decreases |a|
  {
    if a != [] && b != [] {
      LexLeAntisymmetric(a[1..], b[1..]);
      assert a == [a[0]] + a[1..];
      assert b == [b[0]] + b[1..];
    }
  }

  lemma LexLeStep(a: string, b: string)
    requires a != [] && b != []
    ensures LexLe(a, b) <==> a[0] < b[0] || (a[0] == b[0] && LexLe(a[1..], b[1..]))
  {
  }

  /** Two digit pairs compare as strings exactly as the numbers they spell. */
  lemma DigitPairOrder(a: string, b: string)
    requires |a| >= 2 && |b| >= 2
    requires IsDigit(a[0]) && IsDigit(a[1]) && IsDigit(b[0]) && IsDigit(b[1])
    ensures (a[0] < b[0] || (a[0] == b[0] && a[1] < b[1]))
            <==> DigitValue(a[0]) * 10 + DigitValue(a[1]) < DigitValue(b[0]) * 10 + DigitValue(b[1])
    ensures (a[0] == b[0] && a[1] == b[1])
            <==> DigitValue(a[0]) * 10 + DigitValue(a[1]) == DigitValue(b[0]) * 10 + DigitValue(b[1])
  {
  }

  /**
   * For accepted strings, string order is minute order: the pre-save sort by
   * `startTime` therefore orders activities by the time they begin.
   */
  lemma {:induction false} LexOrderIsMinuteOrder(a: string, b: string)
    requires IsValidTime(a) && IsValidTime(b)
    ensures LexLe(a, b) <==> Minutes(a) <= Minutes(b)
  {
    LexLeStep(a, b);
    LexLeStep(a[1..], b[1..]);
    LexLeStep(a[2..], b[2..]);
    LexLeStep(a[3..], b[3..]);
    LexLeStep(a[4..], b[4..]);
    assert a[5..] == [];
    DigitPairOrder(a, b);
    DigitPairOrder(a[3..], b[3..]);
    var ha, hb := Hours(a), Hours(b);
    var ma, mb := MinutePart(a), MinutePart(b);
    assert LexLe(a, b) <==> ha < hb || (ha == hb && (ma < mb || ma == mb));
  }
}
