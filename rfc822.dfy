/**
 * The publication-date layout `"%a, %d %b %Y %H:%M:%S %z"` of RFC 822
 * section 5 (as amended by RFC 2822 section 3.3), read the way
 * `datetime.strptime` reads it, and a formatter that writes it.
 *
 * The parser accepts the fixed-width form `Ddd, DD Mmm YYYY HH:MM:SS +HHMM`
 * with English day and month abbreviations in any ASCII letter case.
 */
module Rfc822 {
  import opened Wrappers
  import opened Calendar
  import opened Numerals

  const DayNames: seq<string> := ["Mon", "Tue", "Wed", "Thu", "Fri", "Sat", "Sun"]
  const MonthNames: seq<string> :=
    ["Jan", "Feb", "Mar", "Apr", "May", "Jun", "Jul", "Aug", "Sep", "Oct", "Nov", "Dec"]

  function LowerAscii(c: char): char
  {
    if 'A' <= c <= 'Z' then (c as int + 32) as char else c
  }

  function Lower(s: string): (r: string)
    ensures |r| == |s|
  {
    seq(|s|, k requires 0 <= k < |s| => LowerAscii(s[k]))
  }

  /** Index of the first name at or after `from` that equals `s` ignoring letter case. */
  function LookupFrom(names: seq<string>, s: string, from: nat): (r: Option<nat>)
    requires from <= |names|
    ensures r.Some? ==> from <= r.value < |names| && Lower(names[r.value]) == Lower(s)
    ensures r.Some? ==> forall k :: from <= k < r.value ==> Lower(names[k]) != Lower(s)
    ensures r.None? ==> forall k :: from <= k < |names| ==> Lower(names[k]) != Lower(s)
    decreases |names| - from
  {
    if from == |names| then None
    else if Lower(names[from]) == Lower(s) then Some(from)
    else LookupFrom(names, s, from + 1)
  }

  function Lookup(names: seq<string>, s: string): Option<nat>
  {
    LookupFrom(names, s, 0)
  }

  /** The `%z` field `+HHMM`/`-HHMM` as minutes east of UTC (`None` unless minutes are at most 59). */
  function ParseOffset(z: string): Option<int>
    requires |z| == 5
  {
    if (z[0] == '+' || z[0] == '-') && AllDigits(z[1..]) && Value(z[3..]) < 60 then
      var minutes := Value(z[1..3]) * 60 + Value(z[3..]);
      Some(if z[0] == '-' then -minutes else minutes)
    else None
  }

  /** The separators of the layout are where they belong. */
  predicate Punctuated(s: string)
    requires |s| == 31
  {
    s[3] == ',' && s[4] == ' ' && s[7] == ' ' && s[11] == ' ' && s[16] == ' ' &&
    s[19] == ':' && s[22] == ':' && s[25] == ' '
  }

  /** The day, year, hour, minute and second fields are all digits. */
  predicate NumericFields(s: string)
    requires |s| == 31
  {
    AllDigits(s[5..7]) && AllDigits(s[12..16]) && AllDigits(s[17..19]) &&
    AllDigits(s[20..22]) && AllDigits(s[23..25])
  }

  /** The value the numeric fields spell, with month index `m` and offset `off`. */
  function FieldsOf(s: string, m: nat, off: int): DateTime
    requires |s| == 31 && NumericFields(s)
  {
    DateTime(Value(s[12..16]), m + 1, Value(s[5..7]),
             Value(s[17..19]), Value(s[20..22]), Value(s[23..25]), Some(off))
  }

  /**
   * `datetime.strptime(s, "%a, %d %b %Y %H:%M:%S %z")`: `None` stands for the
   * `ValueError` it raises when the text does not match the layout or names a
   * date-time (or offset) that does not exist. The weekday name must be one of
   * the seven but is not checked against the date.
   */
  function Parse(s: string): (r: Option<DateTime>)
    ensures r.Some? ==> Valid(r.value) && Aware(r.value)
  {
    if |s| != 31 || !Punctuated(s) || !NumericFields(s) then None
    else
      match (Lookup(DayNames, s[..3]), Lookup(MonthNames, s[8..11]), ParseOffset(s[26..]))
      case (Some(_), Some(m), Some(off)) =>
        var t := FieldsOf(s, m, off);
        if Valid(t) then Some(t) else None
      case _ => None
  }

  /** `%z` as `strftime` writes it. */
  function OffsetText(o: int): (z: string)
    ensures |z| == 5 && (z[0] == '+' || z[0] == '-') && AllDigits(z[1..])
  {
    var a := if o < 0 then -o else o;
    var z := [if o < 0 then '-' else '+'] + Pad(a / 60, 2) + Pad(a % 60, 2);
    assert forall k :: 1 <= k < 3 ==> z[k] == Pad(a / 60, 2)[k - 1];
    assert forall k :: 3 <= k < 5 ==> z[k] == Pad(a % 60, 2)[k - 3];
    z
  }

  /** The layout with the weekday of the date and the given zone text. */
  function Layout(t: DateTime, zone: string): (s: string)
    requires Valid(t)
    ensures |s| == 26 + |zone|
  {
    DayNames[Weekday(t)] + ", " + Pad(t.day, 2) + " " + MonthNames[t.month - 1] + " " +
    Pad(t.year, 4) + " " + Pad(t.hour, 2) + ":" + Pad(t.minute, 2) + ":" + Pad(t.second, 2) +
    " " + zone
  }

  /** An aware value written with a numeric offset, e.g. `Mon, 01 Jan 2024 01:00:00 +0100`. */
  function Format(t: DateTime): (s: string)
    requires Valid(t) && Aware(t)
    ensures |s| == 31
  {
    Layout(t, OffsetText(t.offset.value))
  }

  /** A UTC value written with the `GMT` zone name, e.g. `Mon, 01 Jan 2024 00:00:00 GMT`. */
  function FormatGmt(t: DateTime): (s: string)
    requires Valid(t) && t.offset == Some(0)
    ensures |s| == 29
  {
    Layout(t, "GMT")
  }

  /** A three-letter name as a number, letter case ignored. */
  function NameCode(s: string): int
    requires |s| == 3
  {
    (LowerAscii(s[0]) as int * 256 + LowerAscii(s[1]) as int) * 256 + LowerAscii(s[2]) as int
  }

  lemma NameCodeIgnoresCase(a: string, b: string)
    requires |a| == 3 && |b| == 3 && Lower(a) == Lower(b)
    ensures NameCode(a) == NameCode(b)
  {
    assert Lower(a)[0] == Lower(b)[0] && Lower(a)[1] == Lower(b)[1] && Lower(a)[2] == Lower(b)[2];
  }

  /** The names of a list of three-letter names as numbers. */
  function Codes(names: seq<string>): (r: seq<int>)
    requires forall k :: 0 <= k < |names| ==> |names[k]| == 3
    ensures |r| == |names| && forall k :: 0 <= k < |names| ==> r[k] == NameCode(names[k])
  {
    seq(|names|, k requires 0 <= k < |names| => NameCode(names[k]))
  }

  /** A name that no earlier name equals ignoring case is found at its own index. */
  lemma LookupFindsDistinct(names: seq<string>, i: nat)
    requires i < |names|
    requires forall k :: 0 <= k < |names| ==> |names[k]| == 3
    requires forall k :: 0 <= k < i ==> Codes(names)[k] != Codes(names)[i]
    ensures Lookup(names, names[i]) == Some(i)
  {
    var r := Lookup(names, names[i]);
    if r != Some(i) {
      assert Codes(names)[r.value] == NameCode(names[r.value]);
      NameCodeIgnoresCase(names[r.value], names[i]);
    }
  }

  /** A listed name is always found, at its own index or an earlier one that equals it ignoring case. */
  lemma LookupFindsListed(names: seq<string>, i: nat)
    requires i < |names|
    ensures Lookup(names, names[i]).Some?
  {
  }

  /** No two month names are equal ignoring case, so each is found at its own index. */
  lemma MonthLookup(m: int)
    requires 1 <= m <= 12
    ensures Lookup(MonthNames, MonthNames[m - 1]) == Some(m - 1)
  {
    assert forall k :: 0 <= k < 12 ==> |MonthNames[k]| == 3;
    MonthCodes();
    LookupFindsDistinct(MonthNames, m - 1);
  }

  /** The month names as numbers (letter case ignored). */
  lemma MonthCodes()
    ensures forall k :: 0 <= k < 12 ==> |MonthNames[k]| == 3
    ensures Codes(MonthNames) == [6971758, 6710626, 7168370, 6385778, 7168377, 6976878, 6976876, 6387047, 7562608, 7299956, 7237494, 6579555]
  {
    assert forall k :: 0 <= k < 12 ==> |MonthNames[k]| == 3;
  }

  /** Every day name is found. */
  lemma DayLookup(w: int)
    requires 0 <= w < 7
    ensures Lookup(DayNames, DayNames[w]).Some?
  {
    LookupFindsListed(DayNames, w);
  }

  lemma OffsetRoundTrip(o: int)
    requires ValidOffset(o)
    ensures ParseOffset(OffsetText(o)) == Some(o)
  {
    var a := if o < 0 then -o else o;
    var z := OffsetText(o);
    assert z[1..3] == Pad(a / 60, 2) && z[3..] == Pad(a % 60, 2);
    ValueOfPad(a / 60, 2);
    ValueOfPad(a % 60, 2);
  }

  /** Every value the formatter writes is read back unchanged: the formatter is a right inverse of the parser. */
  lemma ParseFormat(t: DateTime)
    requires Valid(t) && Aware(t)
    ensures Parse(Format(t)) == Some(t)
  {
    OffsetRoundTrip(t.offset.value);
    ParseLayout(t, OffsetText(t.offset.value));
  }

  /** The fields of a written layout sit where the parser reads them. */
  lemma LayoutFields(t: DateTime, zone: string)
    requires Valid(t)
    ensures var s := Layout(t, zone);
      s[3] == ',' && s[4] == ' ' && s[7] == ' ' && s[11] == ' ' && s[16] == ' ' &&
      s[19] == ':' && s[22] == ':' && s[25] == ' ' && s[26..] == zone &&
      s[..3] == DayNames[Weekday(t)] && s[5..7] == Pad(t.day, 2) && s[8..11] == MonthNames[t.month - 1] &&
      s[12..16] == Pad(t.year, 4) && s[17..19] == Pad(t.hour, 2) && s[20..22] == Pad(t.minute, 2) &&
      s[23..25] == Pad(t.second, 2)
  {
    var s := Layout(t, zone);
    var w := DayNames[Weekday(t)];
    assert |w| == 3 && |MonthNames[t.month - 1]| == 3;
    var p1 := w + ", ";
    var p2 := p1 + Pad(t.day, 2);
    var p3 := p2 + " ";
    var p4 := p3 + MonthNames[t.month - 1];
    var p5 := p4 + " ";
    var p6 := p5 + Pad(t.year, 4);
    var p7 := p6 + " ";
    var p8 := p7 + Pad(t.hour, 2);
    var p9 := p8 + ":";
    var p10 := p9 + Pad(t.minute, 2);
    var p11 := p10 + ":";
    var p12 := p11 + Pad(t.second, 2);
    var p13 := p12 + " ";
    assert s == p13 + zone;
    assert s[26..] == zone;
    assert s[..26] == p13;
    assert s[..25] == p12 && s[23..25] == p12[23..];
    assert s[..22] == p10 && s[20..22] == p10[20..];
    assert s[..19] == p8 && s[17..19] == p8[17..];
    assert s[..16] == p6 && s[12..16] == p6[12..];
    assert s[..11] == p4 && s[8..11] == p4[8..];
    assert s[..7] == p2 && s[5..7] == p2[5..];
    assert s[..3] == w;
  }

  /** A string whose fields spell `t` (with any weekday name) parses as `t`. */
  lemma ParseFieldsOf(s: string, t: DateTime, w: nat)
    requires Valid(t) && Aware(t) && w < 7 && |s| == 31
    requires s[3] == ',' && s[4] == ' ' && s[7] == ' ' && s[11] == ' ' && s[16] == ' ' &&
      s[19] == ':' && s[22] == ':' && s[25] == ' ' && ParseOffset(s[26..]) == t.offset
    requires s[..3] == DayNames[w] && s[5..7] == Pad(t.day, 2) && s[8..11] == MonthNames[t.month - 1] &&
      s[12..16] == Pad(t.year, 4) && s[17..19] == Pad(t.hour, 2) && s[20..22] == Pad(t.minute, 2) &&
      s[23..25] == Pad(t.second, 2)
    ensures Parse(s) == Some(t)
  {
    DayLookup(w);
    MonthLookup(t.month);
    assert Pow10(2) == 100 && Pow10(4) == 10000;
    ValueOfPad(t.day, 2);
    ValueOfPad(t.year, 4);
    ValueOfPad(t.hour, 2);
    ValueOfPad(t.minute, 2);
    ValueOfPad(t.second, 2);
    assert Punctuated(s) && NumericFields(s);
    assert FieldsOf(s, t.month - 1, t.offset.value) == t;
  }

  lemma ParseLayout(t: DateTime, zone: string)
    requires Valid(t) && Aware(t) && |zone| == 5 && ParseOffset(zone) == t.offset
    ensures Parse(Layout(t, zone)) == Some(t)
  {
    LayoutFields(t, zone);
    ParseFieldsOf(Layout(t, zone), t, Weekday(t));
  }

  /** None of the day or month names, digits or separators is a capital G. */
  lemma LayoutHeadHasNoG(t: DateTime, zone: string)
    requires Valid(t)
    ensures forall k :: 0 <= k < 26 ==> Layout(t, zone)[k] != 'G'
  {
    var s := Layout(t, zone);
    LayoutFields(t, zone);
    var w := Weekday(t);
    assert forall d, j :: 0 <= d < 7 && 0 <= j < 3 ==> DayNames[d][j] != 'G';
    assert forall m, j :: 0 <= m < 12 && 0 <= j < 3 ==> MonthNames[m][j] != 'G';
    forall k | 0 <= k < 26 ensures s[k] != 'G' {
      if k < 3 { assert s[k] == s[..3][k] == DayNames[w][k]; }
      else if 5 <= k < 7 { assert s[k] == s[5..7][k - 5]; }
      else if 8 <= k < 11 { assert s[k] == s[8..11][k - 8] == MonthNames[t.month - 1][k - 8]; }
      else if 12 <= k < 16 { assert s[k] == s[12..16][k - 12]; }
      else if 17 <= k < 19 { assert s[k] == s[17..19][k - 17]; }
      else if 20 <= k < 22 { assert s[k] == s[20..22][k - 20]; }
      else if 23 <= k < 25 { assert s[k] == s[23..25][k - 23]; }
    }
  }

  /** A value written with a numeric offset has no capital G anywhere. */
  lemma FormatHasNoG(t: DateTime)
    requires Valid(t) && Aware(t)
    ensures forall k :: 0 <= k < 31 ==> Format(t)[k] != 'G'
  {
    var s := Format(t);
    var z := OffsetText(t.offset.value);
    LayoutHeadHasNoG(t, z);
    LayoutFields(t, z);
    forall k | 26 <= k < 31 ensures s[k] != 'G' {
      assert s[k] == s[26..][k - 26] == z[k - 26];
      if k > 26 { assert z[k - 26] == z[1..][k - 27]; }
    }
  }

  /** The layout starts with the first letter of a day name and ends with its zone. */
  lemma LayoutEnds(t: DateTime, zone: string)
    requires Valid(t)
    ensures Layout(t, zone) == Layout(t, "") + zone
    ensures Layout(t, zone)[0] in "MTWFS"
  {
    LayoutFields(t, zone);
    var s := Layout(t, zone);
    assert s[0] == s[..3][0] == DayNames[Weekday(t)][0];
  }

  /** The numeric form ends with a digit of the offset. */
  lemma FormatEnds(t: DateTime)
    requires Valid(t) && Aware(t)
    ensures Format(t)[0] in "MTWFS" && IsDigit(Format(t)[30])
  {
    var z := OffsetText(t.offset.value);
    LayoutFields(t, z);
    LayoutEnds(t, z);
    assert Format(t)[30] == Format(t)[26..][4] == z[4] == z[1..][3];
  }

  lemma OffsetTextUtc()
    ensures OffsetText(0) == "+0000"
  {
  }
}
