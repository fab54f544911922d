/** Durations shown as `HH:MM:SS`: the page's `formatTime` (scripts.js) and
    the CSV export's `format_time` (app.py), and a reader for the format that
    states what the two produce. */
module Clock {
  import opened Wrappers
  import Text

  predicate IsDigit(c: char)
  {
    '0' <= c <= '9'
  }

  predicate AllDigits(s: string)
  {
    forall k :: 0 <= k < |s| ==> IsDigit(s[k])
  }

  function DigitChar(d: nat): (c: char)
    requires d < 10
    ensures IsDigit(c)
  {
    ('0' as int + d) as char
  }

  /** Decimal digits of a natural number, most significant first, no leading zero. */
  function NatToString(n: nat): (r: string)
    ensures |r| >= 1 && AllDigits(r)
    decreases n
  {
    if n < 10 then [DigitChar(n)] else NatToString(n / 10) + [DigitChar(n % 10)]
  }

  /** `Number.prototype.toString` / Python `str` on an integer. */
  function IntToString(n: int): string
  {
    if n < 0 then "-" + NatToString(-n) else NatToString(n)
  }

  /** `n.toString().padStart(2, '0')`. Python's `f"{n:02d}"` gives the same
      string for every integer: a negative number already has two characters. */
  function Pad2(n: int): string
  {
    var d := IntToString(n);
    if |d| < 2 then "0" + d else d
  }

  /** JavaScript `%`: the remainder takes the sign of the dividend. */
  function JsRem(a: int, b: int): int
    requires b > 0
  {
    if a >= 0 then a % b else -((-a) % b)
  }

  /** scripts.js `formatTime`: `Math.floor(s / 3600)`, then
      `Math.floor((s % 3600) / 60)` and `s % 60` with JavaScript's `%`.
      (`Math.floor` of a quotient by a positive divisor is Dafny's `/`.) */
  function FormatTime(seconds: int): string
  {
    Pad2(seconds / 3600) + ":" + Pad2(JsRem(seconds, 3600) / 60) + ":" + Pad2(JsRem(seconds, 60))
  }

  /** app.py `export_tasks.format_time`: `//` and `%` are Python's floor
      operators, which for a positive divisor are Dafny's `/` and `%`. */
  function ExportFormatTime(seconds: int): string
  {
    Pad2(seconds / 3600) + ":" + Pad2((seconds % 3600) / 60) + ":" + Pad2(seconds % 60)
  }

  // ---------------------------------------------------------------------------
  // Reading the format back

  /** Value of a string of decimal digits (leading zeros allowed). */
  function DigitsValue(s: string): nat
    requires AllDigits(s)
    decreases |s|
  {
    if s == [] then 0 else DigitsValue(s[..|s| - 1]) * 10 + (s[|s| - 1] as int - '0' as int)
  }

  datatype Hms = Hms(hours: nat, minutes: nat, seconds: nat)

  /** A field of the clock format: at least two decimal digits. */
  function ParseField(f: string): Option<nat>
  {
    if |f| >= 2 && AllDigits(f) then Some(DigitsValue(f)) else None
  }

  /** Reads `HH:MM:SS`: exactly three `:`-separated fields of two or more digits. */
  function ParseClock(r: string): Option<Hms>
  {
    var parts := Text.Split(r, ':');
    if |parts| != 3 then None
    else match (ParseField(parts[0]), ParseField(parts[1]), ParseField(parts[2]))
      case (Some(h), Some(m), Some(s)) => Some(Hms(h, m, s))
      case _ => None
  }

  /** The digits of `n` read back as `n`. */
  lemma {:induction false} NatToStringValue(n: nat)
    ensures DigitsValue(NatToString(n)) == n
    decreases n
  {
    if n >= 10 {
      NatToStringValue(n / 10);
      var r := NatToString(n);
      assert r[..|r| - 1] == NatToString(n / 10);
    }
  }

  /** A leading zero does not change the value. */
  lemma {:induction false} LeadingZero(s: string)
    requires AllDigits(s)
    ensures AllDigits("0" + s) && DigitsValue("0" + s) == DigitsValue(s)
    decreases |s|
  {
    if s != [] {
      LeadingZero(s[..|s| - 1]);
      assert ("0" + s)[..|s|] == "0" + s[..|s| - 1];
    }
  }

  /** A padded natural number is a field whose value is the number. */
  lemma Pad2Field(n: nat)
    ensures ParseField(Pad2(n)) == Some(n)
    ensures ':' !in Pad2(n)
    ensures n < 100 ==> |Pad2(n)| == 2
  {
    NatToStringValue(n);
    LeadingZero(NatToString(n));
    if 10 <= n < 100 {
      assert |NatToString(n / 10)| == 1;
    }
  }

  /** Three fields joined by `:` read back as those fields. */
  lemma ParseClockFields(a: string, b: string, c: string)
    requires ParseField(a).Some? && ParseField(b).Some? && ParseField(c).Some?
    requires ':' !in a && ':' !in b && ':' !in c
    ensures ParseClock(a + ":" + b + ":" + c)
      == Some(Hms(ParseField(a).value, ParseField(b).value, ParseField(c).value))
  {
    Text.SplitWithoutSep(c, ':');
    Text.SplitAfterPiece(b, c, ':');
    Text.SplitAfterPiece(a, b + ":" + c, ':');
    assert a + ":" + b + ":" + c == a + [':'] + (b + [':'] + c);
    assert Text.Split(a + ":" + b + ":" + c, ':') == [a, b, c];
  }

  /** For a non-negative duration, `formatTime` gives three fields: minutes and
      seconds below 60, and together they add up to the duration. */
  lemma FormatTimeFields(n: nat)
    ensures ParseClock(FormatTime(n)).Some?
    ensures var t := ParseClock(FormatTime(n)).value;
            t.minutes < 60 && t.seconds < 60 && t.hours * 3600 + t.minutes * 60 + t.seconds == n
  {
    var h, m, s := n / 3600, (n % 3600) / 60, n % 60;
    assert FormatTime(n) == Pad2(h) + ":" + Pad2(m) + ":" + Pad2(s);
    Pad2Field(h);
    Pad2Field(m);
    Pad2Field(s);
    ParseClockFields(Pad2(h), Pad2(m), Pad2(s));
    assert h * 3600 + m * 60 + s == n;
  }

  /** Below 100 hours the display is exactly eight characters. */
  lemma FormatTimeWidth(n: nat)
    requires n < 360000
    ensures |FormatTime(n)| == 8
  {
    Pad2Field(n / 3600);
    Pad2Field((n % 3600) / 60);
    Pad2Field(n % 60);
  }

  /** Different durations are displayed differently. */
  lemma FormatTimeInjective(a: nat, b: nat)
    requires FormatTime(a) == FormatTime(b)
    ensures a == b
  {
    FormatTimeFields(a);
    FormatTimeFields(b);
  }

  /** One hour, one minute and one second. */
  lemma FormatTimeExample()
    ensures FormatTime(3661) == "01:01:01"
  {
  }

  /** The export and the page agree on every non-negative duration. */
  lemma ExportAgreesWithPage(n: nat)
    ensures ExportFormatTime(n) == FormatTime(n)
  {
  }

  /** On a negative duration they part ways: JavaScript's `%` keeps the sign
      of the dividend, Python's takes the sign of the divisor. */
  lemma ExportDiffersOnNegative()
    ensures FormatTime(-1) == "-1:-1:-1"
    ensures ExportFormatTime(-1) == "-1:59:59"
  {
  }
}
