/**
 The `m:ss` clock face used for the master clock, the next-up wait and every
 item row: whole minutes, a colon, and the seconds padded to two digits.
 */
module Display {

  datatype Option<T> = None | Some(value: T)

  /** A number of seconds split into whole minutes and leftover seconds. */
  datatype Clockface = Clockface(minutes: nat, seconds: nat)

  /**
   `Math.floor(time / 60)` and `time % 60`. For the non-negative values the
   timer shows, JavaScript's truncating `%` agrees with Dafny's.
   */
  function Split(time: nat): (f: Clockface)
    ensures f.seconds < 60
    ensures f.minutes * 60 + f.seconds == time
  {
    Clockface(time / 60, time % 60)
  }

  predicate IsDigit(c: char)
  {
    '0' <= c <= '9'
  }

  predicate AllDigits(s: string)
  {
    forall i :: 0 <= i < |s| ==> IsDigit(s[i])
  }

  function DigitChar(d: nat): (c: char)
    requires d < 10
    ensures IsDigit(c)
  {
    (48 + d) as char
  }

  function DigitValue(c: char): (d: nat)
    requires IsDigit(c)
    ensures d < 10
  {
    (c as int) - 48
  }

  /** `n.toString()`: the decimal digits of `n`, without leading zeros. */
  function Decimal(n: nat): (s: string)
    ensures |s| >= 1 && AllDigits(s)
    ensures |s| == 1 <==> n < 10
    ensures |s| > 1 ==> s[0] != '0'
    decreases n
  {
    if n < 10 then [DigitChar(n)]
    else Decimal(n / 10) + [DigitChar(n % 10)]
  }

  /** The number a string of decimal digits denotes. */
  function ParseDecimal(s: string): nat
    requires AllDigits(s)
  {
    if |s| == 0 then 0
    else ParseDecimal(s[..|s| - 1]) * 10 + DigitValue(s[|s| - 1])
  }

  /** Reading back a decimal rendering gives the number it was made from. */
  lemma {:induction false} ParseDecimalOf(n: nat)
    ensures ParseDecimal(Decimal(n)) == n
    decreases n
  {
    var s := Decimal(n);
    if n < 10 {
      assert s[..0] == [];
    } else {
      ParseDecimalOf(n / 10);
      assert s[..|s| - 1] == Decimal(n / 10);
    }
  }

  /** `padStart(2, "0")`: strings shorter than two characters get leading zeros. */
  function Pad2(s: string): (r: string)
    ensures |r| == if |s| < 2 then 2 else |s|
    ensures r[|r| - |s|..] == s
    ensures forall i :: 0 <= i < |r| - |s| ==> r[i] == '0'
  {
    if |s| < 2 then seq(2 - |s|, _ => '0') + s else s
  }

  /** The rendering of a time: `${minutes}:${seconds.toString().padStart(2, "0")}`. */
  function FormatTime(time: nat): (r: string)
    ensures |r| >= 4 && r[|r| - 3] == ':'
  {
    var f := Split(time);
    var p := Pad2(Decimal(f.seconds));
    SecondsField(f.seconds);
    Decimal(f.minutes) + ":" + p
  }

  /** Reads an `m:ss` face back into seconds; None unless digits, a colon and two digits below 60. */
  function ParseTime(s: string): Option<nat>
  {
    if |s| < 4 || s[|s| - 3] != ':' then None
    else ParseFields(s[..|s| - 3], s[|s| - 2..])
  }

  /** The value of a minutes field and a seconds field. */
  function ParseFields(m: string, ss: string): Option<nat>
  {
    if AllDigits(m) && AllDigits(ss) && ParseDecimal(ss) < 60
    then Some(ParseDecimal(m) * 60 + ParseDecimal(ss))
    else None
  }

  /** The two-character seconds field reads back as the seconds it shows. */
  lemma SecondsField(seconds: nat)
    requires seconds < 60
    ensures |Pad2(Decimal(seconds))| == 2
    ensures AllDigits(Pad2(Decimal(seconds)))
    ensures ParseDecimal(Pad2(Decimal(seconds))) == seconds
  {
    var d := Decimal(seconds);
    ParseDecimalOf(seconds);
    if seconds < 10 {
      var p := Pad2(d);
      assert p == ['0', d[0]];
      assert p[..1] == ['0'];
      assert ParseDecimal(p[..1]) == 0 by {
        assert p[..1][..0] == [];
      }
      assert d[..0] == [];
    } else {
      assert Pad2(d) == d;
    }
  }

  /** Reading a well-formed face: minutes digits, a colon, two seconds digits below 60. */
  lemma ParseTimeOf(m: string, p: string, minutes: nat, seconds: nat, time: nat)
    requires |m| >= 1 && AllDigits(m) && ParseDecimal(m) == minutes
    requires |p| == 2 && AllDigits(p) && ParseDecimal(p) == seconds
    requires seconds < 60 && time == minutes * 60 + seconds
    ensures ParseTime(m + ":" + p) == Some(time)
  {
    var r := m + ":" + p;
    assert r[|r| - 3] == ':';
    assert r[..|r| - 3] == m;
    assert r[|r| - 2..] == p;
  }

  /** The minutes field reads back as the minutes it shows. */
  lemma MinutesField(minutes: nat)
    ensures |Decimal(minutes)| >= 1 && AllDigits(Decimal(minutes))
    ensures ParseDecimal(Decimal(minutes)) == minutes
  {
    ParseDecimalOf(minutes);
  }

  /** The face of a time is its minutes field, a colon and its seconds field. */
  lemma FormatParts(time: nat)
    ensures FormatTime(time) == Decimal(Split(time).minutes) + ":" + Pad2(Decimal(Split(time).seconds))
  {
  }

  /** The minutes field and the seconds field of a time, joined by a colon, read back as that time. */
  lemma FieldsRoundTrip(time: nat)
    ensures ParseTime(Decimal(Split(time).minutes) + ":" + Pad2(Decimal(Split(time).seconds))) == Some(time)
  {
    var f := Split(time);
    MinutesField(f.minutes);
    SecondsField(f.seconds);
    ParseTimeOf(Decimal(f.minutes), Pad2(Decimal(f.seconds)), f.minutes, f.seconds, time);
  }

  /** The clock face is faithful: reading it back gives exactly the time it shows. */
  lemma ParseFormat(time: nat)
    ensures ParseTime(FormatTime(time)) == Some(time)
  {
    FormatParts(time);
    FieldsRoundTrip(time);
  }

  /** Different times never share a clock face. */
  lemma FormatInjective(a: nat, b: nat)
    requires FormatTime(a) == FormatTime(b)
    ensures a == b
  {
    ParseFormat(a);
    ParseFormat(b);
  }
}
