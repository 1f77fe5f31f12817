/** The exam header (src/components/ExamHeader.jsx): the m:ss subject timer and the
    fullscreen-warning badge. */
module ExamHeader {
  import opened Common

  /** `Math.floor(seconds / 60)`; with a positive divisor Dafny's division is floor
      division. */
  function Minutes(seconds: int): int {
    seconds / 60
  }

  /** JavaScript's `seconds % 60`: the remainder keeps the sign of the dividend. */
  function JsRem60(seconds: int): (r: int)
    ensures -60 < r < 60
    ensures seconds >= 0 ==> r == seconds % 60
    ensures seconds < 0 ==> r <= 0 && (seconds - r) % 60 == 0
  {
    if seconds >= 0 then seconds % 60 else -((-seconds) % 60)
  }

  /** `padStart(2, '0')`. */
  function PadStart2(s: string): (r: string)
    ensures |r| == (if |s| >= 2 then |s| else 2)
    ensures r[|r| - |s|..] == s
    ensures forall i :: 0 <= i < |r| - |s| ==> r[i] == '0'
  {
    if |s| >= 2 then s else seq(2 - |s|, _ => '0') + s
  }

  /** `formatTime`. */
  function FormatTime(seconds: int): string {
    IntToString(Minutes(seconds)) + ":" + PadStart2(IntToString(JsRem60(seconds)))
  }

  /** The value of a two-digit string. */
  function TwoDigitValue(p: string): int
    requires |p| == 2
  {
    (p[0] as int - '0' as int) * 10 + (p[1] as int - '0' as int)
  }

  /** Reads an "m:ss" text back into seconds: one or more minute digits, a colon, exactly
      two second digits, seconds below 60. */
  function ParseTime(t: string): Option<nat> {
    if |t| < 4 || t[|t| - 3] != ':' || !IsDigit(t[|t| - 2]) || !IsDigit(t[|t| - 1]) then None
    else match ParseNat(t[..|t| - 3])
      case None => None
      case Some(m) =>
        var s := TwoDigitValue(t[|t| - 2..]);
        if s < 60 then Some(60 * m + s) else None
  }

  /** A remainder below 60, padded, is two digits whose value is the remainder. */
  lemma SecondsField(r: nat)
    requires r < 60
    ensures var p := PadStart2(NatToString(r));
      |p| == 2 && IsDigit(p[0]) && IsDigit(p[1]) && TwoDigitValue(p) == r
  {
    var p := PadStart2(NatToString(r));
    if r < 10 {
      assert NatToString(r) == [DigitChar(r)];
      assert p == ['0', DigitChar(r)];
    } else {
      var hi, lo := r / 10, r % 10;
      assert hi < 10 && r == hi * 10 + lo;
      assert NatToString(r) == [DigitChar(hi), DigitChar(lo)];
      assert p == [DigitChar(hi), DigitChar(lo)];
      assert TwoDigitValue(p) == hi * 10 + lo;
    }
  }

  /** A text whose fields, counted from its end, are well formed reads back as its
      minutes and seconds. */
  lemma ParseTimeOfFields(t: string, minutes: nat)
    requires |t| >= 4 && t[|t| - 3] == ':' && IsDigit(t[|t| - 2]) && IsDigit(t[|t| - 1])
    requires ParseNat(t[..|t| - 3]) == Some(minutes) && TwoDigitValue(t[|t| - 2..]) < 60
    ensures ParseTime(t) == Some(60 * minutes + TwoDigitValue(t[|t| - 2..]))
  {
  }

  /** The fields of a text "m:p" with a two-character p, counted from its end. */
  lemma FieldsOfText(m: string, p: string)
    requires |p| == 2
    ensures var t := m + [':'] + p;
      && |t| == |m| + 3
      && t[..|m|] == m
      && t[..|t| - 3] == m
      && t[|t| - 3] == ':'
      && t[|t| - 2] == p[0]
      && t[|t| - 1] == p[1]
      && t[|t| - 2..] == p
  {
    var t := m + [':'] + p;
    assert t[..|m|] == m;
    assert t[|m| + 1..] == p;
  }

  /** Reading "minutes:two digits" gives the minutes and seconds back. */
  lemma ParseTimeOfText(m: string, p: string, minutes: nat, total: nat)
    requires ParseNat(m) == Some(minutes)
    requires |p| == 2 && IsDigit(p[0]) && IsDigit(p[1]) && TwoDigitValue(p) < 60
    requires total == 60 * minutes + TwoDigitValue(p)
    ensures ParseTime(m + [':'] + p) == Some(total)
  {
    FieldsOfText(m, p);
    ParseTimeOfFields(m + [':'] + p, minutes);
  }

  /** Any minutes text followed by a colon and a padded remainder below 60 reads back
      as the total. */
  lemma ParseTimeOfSeconds(m: string, minutes: nat, r: nat, total: nat)
    requires ParseNat(m) == Some(minutes) && r < 60 && total == 60 * minutes + r
    ensures ParseTime(m + [':'] + PadStart2(NatToString(r))) == Some(total)
  {
    SecondsField(r);
    ParseTimeOfText(m, PadStart2(NatToString(r)), minutes, total);
  }

  /** Printed minutes, a colon and a padded remainder below 60 read back as the total. */
  lemma ParseTimeOfParts(q: nat, r: nat, total: nat)
    requires r < 60 && total == 60 * q + r
    ensures ParseTime(NatToString(q) + [':'] + PadStart2(NatToString(r))) == Some(total)
  {
    ParseNatToString(q);
    ParseTimeOfSeconds(NatToString(q), q, r, total);
  }

  /** The shape of the text for a non-negative count: the minutes unpadded, a colon,
      the remainder padded. */
  lemma FormatTimeShape(seconds: int)
    requires seconds >= 0
    ensures FormatTime(seconds) == NatToString(seconds / 60) + [':'] + PadStart2(NatToString(seconds % 60))
  {
  }

  /** A text of that shape reads back as the count it was made from. */
  lemma ShapedTextParsesBack(t: string, seconds: nat)
    requires t == NatToString(seconds / 60) + [':'] + PadStart2(NatToString(seconds % 60))
    ensures ParseTime(t) == Some(seconds)
  {
    ParseTimeOfParts(seconds / 60, seconds % 60, seconds);
  }

  /** A text of that shape starts with the minutes and is three characters longer. */
  lemma ShapedTextLength(t: string, seconds: nat)
    requires t == NatToString(seconds / 60) + [':'] + PadStart2(NatToString(seconds % 60))
    ensures t[..|NatToString(seconds / 60)|] == NatToString(seconds / 60)
    ensures |t| == |NatToString(seconds / 60)| + 3
  {
    SecondsField(seconds % 60);
    FieldsOfText(NatToString(seconds / 60), PadStart2(NatToString(seconds % 60)));
  }

  /** For a non-negative count, the text is the unpadded minutes, a colon and two
      second digits, and it reads back as the same number of seconds. */
  lemma FormatTimeRoundTrip(seconds: int)
    requires seconds >= 0
    ensures FormatTime(seconds)[..|NatToString(seconds / 60)|] == NatToString(seconds / 60)
    ensures |FormatTime(seconds)| == |NatToString(seconds / 60)| + 3
    ensures ParseTime(FormatTime(seconds)) == Some(seconds)
  {
    FormatTimeShape(seconds);
    ShapedTextLength(FormatTime(seconds), seconds);
    ShapedTextParsesBack(FormatTime(seconds), seconds);
  }

  /** Minutes are not wrapped at 60: an hour shows as 60 minutes. */
  lemma HourShowsSixtyMinutes()
    ensures FormatTime(3600) == "60:00"
  {
    assert NatToString(60) == NatToString(6) + [DigitChar(0)];
  }

  /** The "Fullscreen warning n/2" badge. */
  function FullscreenBadge(count: int): (r: Option<string>)
    ensures r.Some? <==> count > 0
  {
    if count > 0 then Some("Fullscreen warning " + IntToString(count) + "/2") else None
  }
}
