/**
 * `datetime.isoformat()` for the values the extractor produces (whole
 * seconds), e.g. `2024-01-01T00:00:00+00:00`, and a reader for exactly that
 * form, so that the serialised publication date is shown to lose nothing.
 */
module Iso8601 {
  import opened Wrappers
  import opened Calendar
  import opened Numerals

  /** The `+HH:MM` suffix of an aware value, empty for a naive one (Python's `_format_offset`). */
  function OffsetSuffix(offset: Option<int>): (z: string)
    ensures |z| == if offset.Some? then 6 else 0
  {
    match offset
    case None => ""
    case Some(o) =>
      var a := if o < 0 then -o else o;
      [if o < 0 then '-' else '+'] + Pad(a / 60, 2) + ":" + Pad(a % 60, 2)
  }

  /** The date and time of day, `YYYY-MM-DDTHH:MM:SS`. */
  function CivilText(t: DateTime): (s: string)
    requires Valid(t)
    ensures |s| == 19
  {
    Pad(t.year, 4) + "-" + Pad(t.month, 2) + "-" + Pad(t.day, 2) + "T" +
    Pad(t.hour, 2) + ":" + Pad(t.minute, 2) + ":" + Pad(t.second, 2)
  }

  /** `t.isoformat()`. */
  function Format(t: DateTime): (s: string)
    requires Valid(t)
    ensures |s| == 19 || |s| == 25
  {
    CivilText(t) + OffsetSuffix(t.offset)
  }

  /** Reads `YYYY-MM-DDTHH:MM:SS` (naive) or `YYYY-MM-DDTHH:MM:SS+HH:MM` (aware). */
  function Parse(s: string): (r: Option<DateTime>)
    ensures r.Some? ==> Valid(r.value)
  {
    if (|s| != 19 && |s| != 25) || s[4] != '-' || s[7] != '-' || s[10] != 'T' || s[13] != ':' || s[16] != ':' then None
    else if !(AllDigits(s[..4]) && AllDigits(s[5..7]) && AllDigits(s[8..10]) &&
              AllDigits(s[11..13]) && AllDigits(s[14..16]) && AllDigits(s[17..19])) then None
    else
      match ParseSuffix(s[19..])
      case None => None
      case Some(offset) =>
        var t := DateTime(Value(s[..4]), Value(s[5..7]), Value(s[8..10]),
                          Value(s[11..13]), Value(s[14..16]), Value(s[17..19]), offset);
        if Valid(t) then Some(t) else None
  }

  /** Reads an empty suffix as naive and `+HH:MM`/`-HH:MM` as minutes east of UTC. */
  function ParseSuffix(z: string): Option<Option<int>>
  {
    if z == [] then Some(None)
    else if |z| == 6 && (z[0] == '+' || z[0] == '-') && z[3] == ':' && AllDigits(z[1..3]) && AllDigits(z[4..]) then
      var minutes := Value(z[1..3]) * 60 + Value(z[4..]);
      Some(Some(if z[0] == '-' then -minutes else minutes))
    else None
  }

  lemma SuffixRoundTrip(offset: Option<int>)
    requires offset.Some? ==> ValidOffset(offset.value)
    ensures ParseSuffix(OffsetSuffix(offset)) == Some(offset)
  {
    if offset.Some? {
      var o := offset.value;
      var a := if o < 0 then -o else o;
      var z := OffsetSuffix(offset);
      var p1 := [if o < 0 then '-' else '+'] + Pad(a / 60, 2);
      assert z == p1 + ":" + Pad(a % 60, 2);
      assert z[1..3] == Pad(a / 60, 2) && z[4..] == Pad(a % 60, 2);
      assert Pow10(2) == 100;
      ValueOfPad(a / 60, 2);
      ValueOfPad(a % 60, 2);
    }
  }

  /** The fields of the civil text sit where the reader looks for them. */
  lemma CivilTextFields(t: DateTime)
    requires Valid(t)
    ensures var s := CivilText(t);
      s[4] == '-' && s[7] == '-' && s[10] == 'T' && s[13] == ':' && s[16] == ':' &&
      s[..4] == Pad(t.year, 4) && s[5..7] == Pad(t.month, 2) && s[8..10] == Pad(t.day, 2) &&
      s[11..13] == Pad(t.hour, 2) && s[14..16] == Pad(t.minute, 2) && s[17..19] == Pad(t.second, 2)
  {
    var s := CivilText(t);
    var p1 := Pad(t.year, 4) + "-";
    var p2 := p1 + Pad(t.month, 2);
    var p3 := p2 + "-";
    var p4 := p3 + Pad(t.day, 2);
    var p5 := p4 + "T";
    var p6 := p5 + Pad(t.hour, 2);
    var p7 := p6 + ":";
    var p8 := p7 + Pad(t.minute, 2);
    var p9 := p8 + ":";
    assert s == p9 + Pad(t.second, 2);
    assert s[17..19] == Pad(t.second, 2);
    assert s[..16] == p8 && s[14..16] == p8[14..];
    assert s[..13] == p6 && s[11..13] == p6[11..];
    assert s[..10] == p4 && s[8..10] == p4[8..];
    assert s[..7] == p2 && s[5..7] == p2[5..];
    assert s[..4] == Pad(t.year, 4);
  }

  /** A string made of the civil text of `t` and a suffix that reads as `t`'s offset reads as `t`. */
  lemma ParseFieldsOf(s: string, t: DateTime)
    requires Valid(t) && (|s| == 19 || |s| == 25) && ParseSuffix(s[19..]) == Some(t.offset)
    requires s[4] == '-' && s[7] == '-' && s[10] == 'T' && s[13] == ':' && s[16] == ':'
    requires s[..4] == Pad(t.year, 4) && s[5..7] == Pad(t.month, 2) && s[8..10] == Pad(t.day, 2) &&
      s[11..13] == Pad(t.hour, 2) && s[14..16] == Pad(t.minute, 2) && s[17..19] == Pad(t.second, 2)
    ensures Parse(s) == Some(t)
  {
    assert Pow10(2) == 100 && Pow10(4) == 10000;
    ValueOfPad(t.year, 4);
    ValueOfPad(t.month, 2);
    ValueOfPad(t.day, 2);
    ValueOfPad(t.hour, 2);
    ValueOfPad(t.minute, 2);
    ValueOfPad(t.second, 2);
  }

  /** `isoformat` loses nothing: reading its text back gives the same value. */
  lemma ParseFormat(t: DateTime)
    requires Valid(t)
    ensures Parse(Format(t)) == Some(t)
  {
    var s := Format(t);
    var c := CivilText(t);
    CivilTextFields(t);
    SuffixRoundTrip(t.offset);
    assert s[..19] == c && s[19..] == OffsetSuffix(t.offset);
    assert s[4] == c[4] && s[7] == c[7] && s[10] == c[10] && s[13] == c[13] && s[16] == c[16];
    assert s[5..7] == c[5..7] && s[8..10] == c[8..10] && s[11..13] == c[11..13];
    assert s[14..16] == c[14..16] && s[17..19] == c[17..19] && s[..4] == c[..4];
    ParseFieldsOf(s, t);
  }

  /** Distinct values have distinct texts. */
  lemma FormatInjective(a: DateTime, b: DateTime)
    requires Valid(a) && Valid(b) && Format(a) == Format(b)
    ensures a == b
  {
    ParseFormat(a);
    ParseFormat(b);
  }
}
