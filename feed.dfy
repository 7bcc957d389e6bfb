/**
 * `process_feed`: one article dict per `<item>` of the feed, in feed order,
 * keeping an item unless its `<pubDate>` fails to parse or lies outside the
 * inclusive `[start, end]` window. Naive bounds are read as UTC.
 */
module Feed {
  import opened Wrappers
  import opened Text
  import opened Calendar
  import Rfc822
  import Selection
  import Numerals

  /**
   * One `<item>` node: the text of its `<link>` and `<pubDate>` children when
   * they exist, and the text of each `<category>` child in document order.
   */
  datatype Item = Item(link: Option<string>, pubDate: Option<string>, categories: seq<string>)

  /** The values an article dict holds: a string, a `datetime`, or a list of strings. */
  datatype Entry = Str(s: string) | Stamp(t: DateTime) | StrList(items: seq<string>)

  /** An article (later a queue message): a dict from key to value. */
  type Article = map<string, Entry>

  const UrlKey: string := "url"
  const PubDateKey: string := "pub_date"
  const TagsKey: string := "tags"

  /** The `<pubDate>` text as it reaches `strptime`: stripped, then every `GMT` replaced by `+0000`. */
  function DateText(raw: string): string
  {
    ReplaceGmt(Strip(raw))
  }

  /** No `GMT` token reaches the parser. */
  lemma DateTextHasNoGmt(raw: string)
    ensures !ContainsGmt(DateText(raw))
  {
    ReplaceGmtRemovesAll(Strip(raw));
  }

  /** The parsed publication date, `None` where `strptime` raises `ValueError`. */
  function ParsePubDate(raw: string): (r: Option<DateTime>)
    ensures r.Some? ==> Valid(r.value) && Aware(r.value)
  {
    Rfc822.Parse(DateText(raw))
  }

  /** `[tag.text.strip() for tag in item.find_all('category')]` */
  function Tags(categories: seq<string>): seq<string>
  {
    seq(|categories|, k requires 0 <= k < |categories| => Strip(categories[k]))
  }

  /** `article['url'] = link.text.strip()` when the item has a `<link>`. */
  function WithUrl(item: Item, a: Article): Article
  {
    if item.link.Some? then a[UrlKey := Str(Strip(item.link.value))] else a
  }

  /** `article['pub_date'] = pub_datetime` when the item has a `<pubDate>` that parses. */
  function WithPubDate(item: Item, a: Article): Article
  {
    if item.pubDate.Some? && ParsePubDate(item.pubDate.value).Some?
    then a[PubDateKey := Stamp(ParsePubDate(item.pubDate.value).value)]
    else a
  }

  /** `article['tags'] = [...]`, always. */
  function WithTags(item: Item, a: Article): Article
  {
    a[TagsKey := StrList(Tags(item.categories))]
  }

  /** The dict the loop builds for an item, key by key, up to the point where it is appended. */
  function Record(item: Item): Article
  {
    WithTags(item, WithPubDate(item, WithUrl(item, map[])))
  }

  /** Both bounds are aware, valid values. */
  predicate Bounds(lo: DateTime, hi: DateTime)
  {
    Valid(lo) && Aware(lo) && Valid(hi) && Aware(hi)
  }

  /** Whether the loop reaches `articles.append` for this item, with aware bounds. */
  predicate IsKept(item: Item, lo: DateTime, hi: DateTime)
    requires Bounds(lo, hi)
  {
    match item.pubDate
    case None => true
    case Some(raw) =>
      match ParsePubDate(raw)
      case None => false
      case Some(pub) => InWindow(pub, lo, hi)
  }

  /** The keep/drop rule for fixed aware bounds. */
  function KeepRule(lo: DateTime, hi: DateTime): Item -> bool
    requires Bounds(lo, hi)
  {
    (item: Item) => IsKept(item, lo, hi)
  }

  /** The articles the loop appends for `items`, with aware bounds: each kept item's record, in order. */
  function Extracted(items: seq<Item>, lo: DateTime, hi: DateTime): seq<Article>
    requires Bounds(lo, hi)
  {
    Selection.Select(items, KeepRule(lo, hi), Record)
  }

  /** `process_feed(items, start, end)`: the bounds are first made aware by reading a naive one as UTC. */
  function Extract(items: seq<Item>, start: DateTime, end: DateTime): seq<Article>
    requires Valid(start) && Valid(end)
  {
    Extracted(items, AsUtc(start), AsUtc(end))
  }

  /** An item whose date parses is kept exactly when the date is in the window, and its record holds the date. */
  lemma ParsedItem(item: Item, lo: DateTime, hi: DateTime, pub: DateTime, a: Article)
    requires Bounds(lo, hi) && item.pubDate.Some? && ParsePubDate(item.pubDate.value) == Some(pub)
    ensures IsKept(item, lo, hi) <==> Instant(lo) <= Instant(pub) <= Instant(hi)
    ensures WithPubDate(item, a) == a[PubDateKey := Stamp(pub)]
  {
  }

  /** An item whose date does not parse is dropped, and its record has no date. */
  lemma UnparsedItem(item: Item, lo: DateTime, hi: DateTime, a: Article)
    requires Bounds(lo, hi) && item.pubDate.Some? && ParsePubDate(item.pubDate.value).None?
    ensures !IsKept(item, lo, hi) && WithPubDate(item, a) == a
  {
  }

  /** `process_feed` as the loop it is; it returns exactly the specified articles. */
  method ProcessFeed(items: seq<Item>, start: DateTime, end: DateTime) returns (articles: seq<Article>)
    requires Valid(start) && Valid(end)
    ensures articles == Extract(items, start, end)
  {
    var lo, hi := start, end;
    if lo.offset.None? {
      lo := lo.(offset := Some(0));
    }
    if hi.offset.None? {
      hi := hi.(offset := Some(0));
    }
    articles := [];
    for i := 0 to |items|
      invariant articles == Extracted(items[..i], lo, hi)
    {
      Selection.SelectStep(items, i, KeepRule(lo, hi), Record);
      var item := items[i];
      var article: Article := map[];
      if item.link.Some? {
        article := article[UrlKey := Str(Strip(item.link.value))];
      }
      assert article == WithUrl(item, map[]);
      if item.pubDate.Some? {
        var text := Strip(item.pubDate.value);
        text := ReplaceGmt(text);
        var parsed := Rfc822.Parse(text);
        assert parsed == ParsePubDate(item.pubDate.value);
        if parsed.None? {
          UnparsedItem(item, lo, hi, article);
          continue;
        }
        ParsedItem(item, lo, hi, parsed.value, article);
        article := article[PubDateKey := Stamp(parsed.value)];
        if !(Instant(lo) <= Instant(parsed.value) <= Instant(hi)) {
          continue;
        }
      }
      assert article == WithPubDate(item, WithUrl(item, map[]));
      article := article[TagsKey := StrList(Tags(item.categories))];
      articles := articles + [article];
    }
    assert items[..|items|] == items;
  }

  // ---------------------------------------------------------------------------
  // Properties of the extraction
  // ---------------------------------------------------------------------------

  /** Items are processed one at a time: the articles of a concatenation are the concatenation of the articles. */
  lemma ExtractedAppend(a: seq<Item>, b: seq<Item>, lo: DateTime, hi: DateTime)
    requires Bounds(lo, hi)
    ensures Extracted(a + b, lo, hi) == Extracted(a, lo, hi) + Extracted(b, lo, hi)
  {
    Selection.SelectAppend(a, b, KeepRule(lo, hi), Record);
  }

  /** The indices of the kept items, in increasing order. */
  function KeptIndices(items: seq<Item>, lo: DateTime, hi: DateTime): seq<nat>
    requires Bounds(lo, hi)
  {
    Selection.Kept(items, KeepRule(lo, hi))
  }

  /**
   * The output is a subsequence of the input: article `k` is the record of the
   * item at the `k`-th kept index; the indices strictly increase (no
   * reordering, no merging), and an item appears exactly when it is kept.
   */
  lemma ExtractedIsSubsequence(items: seq<Item>, lo: DateTime, hi: DateTime)
    requires Bounds(lo, hi)
    ensures |Extracted(items, lo, hi)| == |KeptIndices(items, lo, hi)|
    ensures forall k :: 0 <= k < |KeptIndices(items, lo, hi)| ==> KeptIndices(items, lo, hi)[k] < |items|
    ensures forall k :: 0 <= k < |KeptIndices(items, lo, hi)| ==>
      IsKept(items[KeptIndices(items, lo, hi)[k]], lo, hi) &&
      Extracted(items, lo, hi)[k] == Record(items[KeptIndices(items, lo, hi)[k]])
    ensures forall k1, k2 :: 0 <= k1 < k2 < |KeptIndices(items, lo, hi)| ==>
      KeptIndices(items, lo, hi)[k1] < KeptIndices(items, lo, hi)[k2]
    ensures forall j :: 0 <= j < |items| ==> (IsKept(items[j], lo, hi) <==> j in KeptIndices(items, lo, hi))
  {
    Selection.IsSubsequence(items, KeepRule(lo, hi), Record);
  }

  /**
   * What every emitted article holds: `url` exactly when the item has a
   * `<link>`, holding its stripped text; `pub_date` exactly when it has a
   * `<pubDate>`, holding the parsed value, offset kept, inside the window;
   * `tags` always, one stripped text per `<category>` in order; nothing else.
   */
  lemma EmittedArticles(items: seq<Item>, start: DateTime, end: DateTime, k: nat)
    requires Valid(start) && Valid(end) && k < |Extract(items, start, end)|
    ensures var lo, hi := AsUtc(start), AsUtc(end);
      var idx := KeptIndices(items, lo, hi);
      var a := Extract(items, start, end)[k];
      k < |idx| && idx[k] < |items| &&
      var item := items[idx[k]];
      a.Keys <= {UrlKey, PubDateKey, TagsKey} &&
      (UrlKey in a <==> item.link.Some?) &&
      (item.link.Some? ==> a[UrlKey] == Str(Strip(item.link.value))) &&
      (PubDateKey in a <==> item.pubDate.Some?) &&
      (item.pubDate.Some? ==> (a[PubDateKey].Stamp? && Some(a[PubDateKey].t) == ParsePubDate(item.pubDate.value) &&
        InWindow(a[PubDateKey].t, lo, hi))) &&
      TagsKey in a && a[TagsKey] == StrList(Tags(item.categories)) &&
      |Tags(item.categories)| == |item.categories| &&
      (forall j :: 0 <= j < |item.categories| ==> Tags(item.categories)[j] == Strip(item.categories[j]))
  {
    ExtractedIsSubsequence(items, AsUtc(start), AsUtc(end));
  }

  /** A lone item is emitted as its record, or dropped, and the three outcomes are exactly these. */
  lemma SingleItem(item: Item, lo: DateTime, hi: DateTime)
    requires Bounds(lo, hi)
    ensures item.pubDate.None? ==> Extracted([item], lo, hi) == [Record(item)]
    ensures item.pubDate.Some? && ParsePubDate(item.pubDate.value).None? ==> Extracted([item], lo, hi) == []
    ensures item.pubDate.Some? && ParsePubDate(item.pubDate.value).Some? ==>
      Extracted([item], lo, hi) == if InWindow(ParsePubDate(item.pubDate.value).value, lo, hi) then [Record(item)] else []
  {
    Selection.SelectStep([item], 0, KeepRule(lo, hi), Record);
    assert [item][..1] == [item] && [item][..0] == [];
    assert KeepRule(lo, hi)(item) == IsKept(item, lo, hi);
  }

  /** Items without `<pubDate>` are always emitted, whatever the window, and get no `pub_date` key. */
  lemma UndatedItemsAllEmitted(items: seq<Item>, lo: DateTime, hi: DateTime)
    requires Bounds(lo, hi)
    requires forall j :: 0 <= j < |items| ==> items[j].pubDate.None?
    ensures |Extracted(items, lo, hi)| == |items|
    ensures forall j :: 0 <= j < |items| ==>
      Extracted(items, lo, hi)[j] == Record(items[j]) && PubDateKey !in Extracted(items, lo, hi)[j]
  {
    Selection.SelectAll(items, KeepRule(lo, hi), Record);
  }

  /** In any feed, an undated item is emitted: some article is its record, and that article has no `pub_date`. */
  lemma UndatedItemEmitted(items: seq<Item>, lo: DateTime, hi: DateTime, j: nat)
    requires Bounds(lo, hi) && j < |items| && items[j].pubDate.None?
    ensures j in KeptIndices(items, lo, hi)
    ensures exists k :: (0 <= k < |Extracted(items, lo, hi)| && k < |KeptIndices(items, lo, hi)| &&
      KeptIndices(items, lo, hi)[k] == j &&
      Extracted(items, lo, hi)[k] == Record(items[j]) && PubDateKey !in Extracted(items, lo, hi)[k])
  {
    ExtractedIsSubsequence(items, lo, hi);
    var ks := KeptIndices(items, lo, hi);
    var k :| 0 <= k < |ks| && ks[k] == j;
    assert Extracted(items, lo, hi)[k] == Record(items[j]);
  }

  /** An item whose date does not parse is dropped silently and the items after it are still processed. */
  lemma UnparseableDropped(before: seq<Item>, bad: Item, after: seq<Item>, lo: DateTime, hi: DateTime)
    requires Bounds(lo, hi)
    requires bad.pubDate.Some? && ParsePubDate(bad.pubDate.value).None?
    ensures Extracted(before + [bad] + after, lo, hi) == Extracted(before, lo, hi) + Extracted(after, lo, hi)
  {
    ExtractedAppend(before + [bad], after, lo, hi);
    ExtractedAppend(before, [bad], lo, hi);
    SingleItem(bad, lo, hi);
  }

  /** The window is inclusive: a date at either bound (as an instant) is kept. */
  lemma BoundsAreInclusive(item: Item, lo: DateTime, hi: DateTime, pub: DateTime)
    requires Bounds(lo, hi) && Instant(lo) <= Instant(hi)
    requires item.pubDate.Some? && ParsePubDate(item.pubDate.value) == Some(pub)
    requires Instant(pub) == Instant(lo) || Instant(pub) == Instant(hi)
    ensures Extracted([item], lo, hi) == [Record(item)]
  {
    SingleItem(item, lo, hi);
  }

  /** No date that does not follow the layout survives, e.g. `not-a-date`. */
  lemma NotADate()
    ensures ParsePubDate("not-a-date").None?
  {
    StripOfStripped("not-a-date");
    ReplaceGmtSkipsPrefix("not-a-date", "");
    assert "not-a-date" + "" == "not-a-date";
  }

  /** Text with no white space at its ends and no capital G reaches the parser unchanged. */
  lemma PlainDateText(s: string)
    requires Stripped(s) && forall k :: 0 <= k < |s| ==> s[k] != 'G'
    ensures DateText(s) == s
  {
    StripOfStripped(s);
    ReplaceGmtSkipsPrefix(s, "");
    assert s + "" == s;
  }

  /** A date written with a numeric offset is read back exactly, offset kept. */
  lemma NumericOffsetDate(t: DateTime)
    requires Valid(t) && Aware(t)
    ensures ParsePubDate(Rfc822.Format(t)) == Some(t)
  {
    var s := Rfc822.Format(t);
    Rfc822.FormatHasNoG(t);
    Rfc822.FormatEnds(t);
    PlainDateText(s);
    Rfc822.ParseFormat(t);
  }

  /** The shim turns a trailing `GMT` after G-free text into `+0000`. */
  lemma ShimGmtSuffix(head: string)
    requires Stripped(head + "GMT") && forall k :: 0 <= k < |head| ==> head[k] != 'G'
    ensures DateText(head + "GMT") == head + "+0000"
  {
    StripReplaceGmtSuffix(head);
  }

  /** A UTC date written with the `GMT` zone name, as feeds do, parses to the same UTC value through the shim. */
  lemma GmtDate(t: DateTime)
    requires Valid(t) && t.offset == Some(0)
    ensures ParsePubDate(Rfc822.FormatGmt(t)) == Some(t)
  {
    GmtShim(t);
    Rfc822.ParseFormat(t);
  }

  /** The shim turns the `GMT` form of a UTC date into its numeric form. */
  lemma GmtShim(t: DateTime)
    requires Valid(t) && t.offset == Some(0)
    ensures DateText(Rfc822.FormatGmt(t)) == Rfc822.Format(t)
  {
    var head := Rfc822.Layout(t, "");
    Rfc822.LayoutEnds(t, "GMT");
    Rfc822.LayoutEnds(t, "+0000");
    Rfc822.LayoutHeadHasNoG(t, "");
    ShimGmtSuffix(head);
    Rfc822.OffsetTextUtc();
  }

  /** The fields of the example dates, as the layout writes them. */
  lemma ExampleFields()
    ensures Weekday(DateTime(2024, 1, 1, 0, 0, 0, Some(0))) == 0
    ensures Weekday(DateTime(2024, 1, 2, 0, 0, 0, Some(0))) == 1
    ensures Numerals.Pad(0, 2) == "00" && Numerals.Pad(1, 2) == "01" && Numerals.Pad(2, 2) == "02"
    ensures Numerals.Pad(2024, 4) == "2024"
    ensures Rfc822.DayNames[0] == "Mon" && Rfc822.DayNames[1] == "Tue" && Rfc822.MonthNames[0] == "Jan"
  {
    Numerals.PadExamples();
    assert Ordinal(DateTime(2024, 1, 1, 0, 0, 0, Some(0))) == 738886;
    assert Ordinal(DateTime(2024, 1, 2, 0, 0, 0, Some(0))) == 738887;
  }

  /** The first date of the extraction example in the test suite, as the feed writes it. */
  lemma FirstExampleDate()
    ensures Rfc822.FormatGmt(DateTime(2024, 1, 1, 0, 0, 0, Some(0))) == "Mon, 01 Jan 2024 00:00:00 GMT"
  {
    var t := DateTime(2024, 1, 1, 0, 0, 0, Some(0));
    ExampleFields();
    var p0 := "Mon";
    var p1 := p0 + ", ";
    assert p1 == "Mon, ";
    var p2 := p1 + "01";
    assert p2 == "Mon, 01";
    var p3 := p2 + " ";
    assert p3 == "Mon, 01 ";
    var p4 := p3 + "Jan";
    assert p4 == "Mon, 01 Jan";
    var p5 := p4 + " ";
    assert p5 == "Mon, 01 Jan ";
    var p6 := p5 + "2024";
    assert p6 == "Mon, 01 Jan 2024";
    var p7 := p6 + " ";
    assert p7 == "Mon, 01 Jan 2024 ";
    var p8 := p7 + "00";
    assert p8 == "Mon, 01 Jan 2024 00";
    var p9 := p8 + ":";
    assert p9 == "Mon, 01 Jan 2024 00:";
    var p10 := p9 + "00";
    assert p10 == "Mon, 01 Jan 2024 00:00";
    var p11 := p10 + ":";
    assert p11 == "Mon, 01 Jan 2024 00:00:";
    var p12 := p11 + "00";
    assert p12 == "Mon, 01 Jan 2024 00:00:00";
    var p13 := p12 + " ";
    assert p13 == "Mon, 01 Jan 2024 00:00:00 ";
    var p14 := p13 + "GMT";
    assert p14 == "Mon, 01 Jan 2024 00:00:00 GMT";
    assert Rfc822.FormatGmt(t) == p14;
  }

  /** The second date of the extraction example in the test suite. */
  lemma SecondExampleDate()
    ensures Rfc822.FormatGmt(DateTime(2024, 1, 2, 0, 0, 0, Some(0))) == "Tue, 02 Jan 2024 00:00:00 GMT"
  {
    var t := DateTime(2024, 1, 2, 0, 0, 0, Some(0));
    ExampleFields();
    var p0 := "Tue";
    var p1 := p0 + ", ";
    assert p1 == "Tue, ";
    var p2 := p1 + "02";
    assert p2 == "Tue, 02";
    var p3 := p2 + " ";
    assert p3 == "Tue, 02 ";
    var p4 := p3 + "Jan";
    assert p4 == "Tue, 02 Jan";
    var p5 := p4 + " ";
    assert p5 == "Tue, 02 Jan ";
    var p6 := p5 + "2024";
    assert p6 == "Tue, 02 Jan 2024";
    var p7 := p6 + " ";
    assert p7 == "Tue, 02 Jan 2024 ";
    var p8 := p7 + "00";
    assert p8 == "Tue, 02 Jan 2024 00";
    var p9 := p8 + ":";
    assert p9 == "Tue, 02 Jan 2024 00:";
    var p10 := p9 + "00";
    assert p10 == "Tue, 02 Jan 2024 00:00";
    var p11 := p10 + ":";
    assert p11 == "Tue, 02 Jan 2024 00:00:";
    var p12 := p11 + "00";
    assert p12 == "Tue, 02 Jan 2024 00:00:00";
    var p13 := p12 + " ";
    assert p13 == "Tue, 02 Jan 2024 00:00:00 ";
    var p14 := p13 + "GMT";
    assert p14 == "Tue, 02 Jan 2024 00:00:00 GMT";
    assert Rfc822.FormatGmt(t) == p14;
  }

  /** The record of an item with a link and a date that parses. */
  lemma DatedRecord(link: string, date: string, categories: seq<string>, pub: DateTime)
    requires Strip(link) == link && ParsePubDate(date) == Some(pub)
    ensures Record(Item(Some(link), Some(date), categories)) ==
      map[UrlKey := Str(link), PubDateKey := Stamp(pub), TagsKey := StrList(Tags(categories))]
  {
    var item := Item(Some(link), Some(date), categories);
    var a1 := map[UrlKey := Str(link)];
    assert WithUrl(item, map[]) == a1;
    assert WithPubDate(item, a1) == a1[PubDateKey := Stamp(pub)];
  }

  /** The tags of an item with one stripped category, or with none. */
  lemma OneTag(tag: string)
    requires Stripped(tag)
    ensures Tags([tag]) == [tag] && Tags([]) == []
  {
    StripOfStripped(tag);
  }

  /** Two kept items give their two records, in order. */
  lemma BothKept(first: Item, second: Item, lo: DateTime, hi: DateTime)
    requires Bounds(lo, hi) && IsKept(first, lo, hi) && IsKept(second, lo, hi)
    ensures Extracted([first, second], lo, hi) == [Record(first), Record(second)]
  {
    assert KeepRule(lo, hi)(first) && KeepRule(lo, hi)(second);
    Selection.SelectPair(first, second, KeepRule(lo, hi), Record);
  }

  /**
   * The shape of the extraction example in the test suite: two items dated
   * at the two bounds of the window, the first with one category, the second
   * with none, are both kept, in order, with their links and tags.
   */
  lemma TwoItemsAtTheBounds(lo: DateTime, hi: DateTime, link1: string, date1: string, link2: string, date2: string, tag: string)
    requires Bounds(lo, hi) && Instant(lo) <= Instant(hi)
    requires ParsePubDate(date1) == Some(lo) && ParsePubDate(date2) == Some(hi)
    requires Stripped(link1) && Stripped(link2) && Stripped(tag)
    ensures Extracted([Item(Some(link1), Some(date1), [tag]), Item(Some(link2), Some(date2), [])], lo, hi) ==
      [map[UrlKey := Str(link1), PubDateKey := Stamp(lo), TagsKey := StrList([tag])],
       map[UrlKey := Str(link2), PubDateKey := Stamp(hi), TagsKey := StrList([])]]
  {
    var first := Item(Some(link1), Some(date1), [tag]);
    var second := Item(Some(link2), Some(date2), []);
    ParsedItem(first, lo, hi, lo, map[]);
    ParsedItem(second, lo, hi, hi, map[]);
    BothKept(first, second, lo, hi);
    OneTag(tag);
    StripOfStripped(link1);
    StripOfStripped(link2);
    DatedRecord(link1, date1, [tag], lo);
    DatedRecord(link2, date2, [], hi);
  }

  /** The extraction example of the test suite, with its dates written as the feed writes them (`GMT`). */
  lemma TestFeedExample(link1: string, link2: string, tag: string)
    requires Stripped(link1) && Stripped(link2) && Stripped(tag)
    ensures var lo := DateTime(2024, 1, 1, 0, 0, 0, Some(0));
      var hi := DateTime(2024, 1, 2, 0, 0, 0, Some(0));
      Extract([Item(Some(link1), Some("Mon, 01 Jan 2024 00:00:00 GMT"), [tag]),
               Item(Some(link2), Some("Tue, 02 Jan 2024 00:00:00 GMT"), [])], lo, hi) ==
      [map[UrlKey := Str(link1), PubDateKey := Stamp(lo), TagsKey := StrList([tag])],
       map[UrlKey := Str(link2), PubDateKey := Stamp(hi), TagsKey := StrList([])]]
  {
    var lo := DateTime(2024, 1, 1, 0, 0, 0, Some(0));
    var hi := DateTime(2024, 1, 2, 0, 0, 0, Some(0));
    FirstExampleDate();
    SecondExampleDate();
    GmtDate(lo);
    GmtDate(hi);
    TwoItemsAtTheBounds(lo, hi, link1, "Mon, 01 Jan 2024 00:00:00 GMT", link2, "Tue, 02 Jan 2024 00:00:00 GMT", tag);
  }
}
