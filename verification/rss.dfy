/**
  `build_rss`: the RSS 2.0 document as the list of fragments the aggregator appends
  to `parts` and then joins. A reader for that layout (`DecodeRss`) recovers the
  channel link and every item, in order, from the joined text.
 */
module Rss {
  import opened Wrappers
  import opened Sequences
  import opened Entries
  import opened XmlEscape

  const Prolog := "<?xml version=\"1.0\" encoding=\"UTF-8\" ?>\n<rss version=\"2.0\">\n  <channel>\n"
  const ChannelOpen := "    <title>ข่าวไว</title>\n    <link>"
  const ChannelClose := LinkClose + ChannelDescription
  const ChannelDescription := "    <description>ข่าวอัปเดตเร็ว ทันเหตุการณ์ รายชั่วโมง</description>\n    <language>th-TH</language>\n\n"
  const Footer := "  </channel>\n</rss>\n"

  const ItemOpen := "    <item>\n"
  const ItemClose := "    </item>\n\n"
  const TitleOpen := "      <title>"
  const TitleClose := "</title>\n"
  const LinkOpen := "      <link>"
  const LinkClose := "</link>\n"
  const DescriptionOpen := "      <description>"
  const DescriptionClose := "</description>\n"
  const PubDateOpen := "      <pubDate>"
  const PubDateClose := "</pubDate>\n"
  const GuidOpen := "      <guid isPermaLink=\"false\">"
  const GuidClose := "</guid>\n"

  /** The channel metadata; the page link is written as it is, without escaping. */
  function ChannelHeader(pageLink: string): string {
    ChannelOpen + pageLink + ChannelClose
  }

  /** One element line: opening tag, character data, closing tag and line break. */
  function Line(open: string, text: string, close: string): string {
    open + text + close
  }

  /**
    The fragments appended for one item: the description line only when the summary
    is non-empty, and the guid without escaping.
   */
  function ItemParts(it: Item): seq<string> {
    ItemHead(it) + ItemDescription(it) + ItemTail(it)
  }

  function ItemHead(it: Item): seq<string> {
    [ItemOpen, Line(TitleOpen, Escape(Some(it.title)), TitleClose), Line(LinkOpen, Escape(Some(it.link)), LinkClose)]
  }

  function ItemDescription(it: Item): seq<string> {
    if it.summary != "" then [Line(DescriptionOpen, Escape(Some(it.summary)), DescriptionClose)] else []
  }

  function ItemTail(it: Item): seq<string> {
    [Line(PubDateOpen, Escape(Some(it.pubdate)), PubDateClose), Line(GuidOpen, it.guid, GuidClose), ItemClose]
  }

  /** The fragments of all items, in order. */
  function ItemsParts(items: seq<Item>): seq<string> {
    if items == [] then [] else ItemsParts(items[..|items| - 1]) + ItemParts(items[|items| - 1])
  }

  /** Everything appended to `parts`: prolog, channel header, the items, the closing tags. */
  function DocumentParts(items: seq<Item>, pageLink: string): seq<string> {
    [Prolog, ChannelHeader(pageLink)] + ItemsParts(items) + [Footer]
  }

  /** Python's `"".join(parts)`. */
  function Concat(parts: seq<string>): string {
    if parts == [] then "" else parts[0] + Concat(parts[1..])
  }

  function RssDocument(items: seq<Item>, pageLink: string): string {
    Concat(DocumentParts(items, pageLink))
  }

  /** `build_rss(items)` with `PAGE_LINK` passed in. */
  method BuildRss(items: seq<Item>, pageLink: string) returns (xml: string)
    ensures xml == RssDocument(items, pageLink)
  {
    var parts: seq<string> := [];
    parts := parts + [Prolog];
    parts := parts + [ChannelHeader(pageLink)];
    for i := 0 to |items|
      invariant parts == [Prolog, ChannelHeader(pageLink)] + ItemsParts(items[..i])
    {
      var it := items[i];
      ghost var before := parts;
      parts := parts + [ItemOpen];
      parts := parts + [Line(TitleOpen, Escape(Some(it.title)), TitleClose)];
      parts := parts + [Line(LinkOpen, Escape(Some(it.link)), LinkClose)];
      AppendThree(before, ItemOpen, Line(TitleOpen, Escape(Some(it.title)), TitleClose), Line(LinkOpen, Escape(Some(it.link)), LinkClose));
      if it.summary != "" {
        parts := parts + [Line(DescriptionOpen, Escape(Some(it.summary)), DescriptionClose)];
      }
      assert parts == before + ItemHead(it) + ItemDescription(it);
      ghost var middle := parts;
      parts := parts + [Line(PubDateOpen, Escape(Some(it.pubdate)), PubDateClose)];
      parts := parts + [Line(GuidOpen, it.guid, GuidClose)];
      parts := parts + [ItemClose];
      AppendThree(middle, Line(PubDateOpen, Escape(Some(it.pubdate)), PubDateClose), Line(GuidOpen, it.guid, GuidClose), ItemClose);
      DocumentStep(items, i, pageLink, before);
    }
    parts := parts + [Footer];
    assert items[..|items|] == items;
    xml := Concat(parts);
  }

  lemma DocumentStep(items: seq<Item>, i: nat, pageLink: string, before: seq<string>)
    requires i < |items| && before == [Prolog, ChannelHeader(pageLink)] + ItemsParts(items[..i])
    ensures before + ItemHead(items[i]) + ItemDescription(items[i]) + ItemTail(items[i])
      == [Prolog, ChannelHeader(pageLink)] + ItemsParts(items[..i + 1])
  {
    var it := items[i];
    AppendAssoc(before, ItemHead(it), ItemDescription(it));
    AppendAssoc(before, ItemHead(it) + ItemDescription(it), ItemTail(it));
    ItemsPartsPrefix(items, i);
    AppendAssoc([Prolog, ChannelHeader(pageLink)], ItemsParts(items[..i]), ItemParts(it));
  }

  lemma ItemsPartsPrefix(items: seq<Item>, i: nat)
    requires i < |items|
    ensures ItemsParts(items[..i + 1]) == ItemsParts(items[..i]) + ItemParts(items[i])
  {
    assert items[..i + 1][..i] == items[..i];
  }

  /** The fragments of a non-empty item list: those of its first item, then the rest. */
  lemma {:induction false} ItemsPartsCons(items: seq<Item>)
    requires items != []
    ensures ItemsParts(items) == ItemParts(items[0]) + ItemsParts(items[1..])
  {
    if |items| > 1 {
      var init := items[..|items| - 1];
      ItemsPartsCons(init);
      assert init[1..] == items[1..][..|items| - 2];
      AppendAssoc(ItemParts(items[0]), ItemsParts(init[1..]), ItemParts(items[|items| - 1]));
    } else {
      assert items[..0] == [] && items[1..] == [];
    }
  }

  lemma {:induction false} ConcatAppend(p: seq<string>, q: seq<string>)
    ensures Concat(p + q) == Concat(p) + Concat(q)
  {
    if p == [] {
      assert p + q == q;
    } else {
      assert (p + q)[1..] == p[1..] + q;
      ConcatAppend(p[1..], q);
    }
  }

  // ---------------------------------------------------------------------------
  // Reading the document back

  /** `s` with `lit` removed from its front, if it starts with `lit`. */
  function Expect(lit: string, s: string): (r: Option<string>)
    ensures r.Some? <==> lit <= s
    ensures r.Some? ==> s == lit + r.value
  {
    if lit <= s then Some(s[|lit|..]) else None
  }

  /** The character data up to the next `<`, and what follows it. */
  function TakeText(s: string): (r: (string, string))
    ensures r.0 + r.1 == s && '<' !in r.0
    ensures r.1 == [] || r.1[0] == '<'
  {
    if s == [] || s[0] == '<' then ([], s)
    else
      var (t, rest) := TakeText(s[1..]);
      assert [s[0]] + t + rest == s;
      ([s[0]] + t, rest)
  }

  /** One `open text close` line: the text and what follows the line. */
  function DecodeField(open: string, close: string, s: string): (r: Option<(string, string)>)
    ensures r.Some? ==> |r.value.1| <= |s|
  {
    var s1 :- Expect(open, s);
    var (text, s2) := TakeText(s1);
    var s3 :- Expect(close, s2);
    Some((text, s3))
  }

  /** One `<item>` block: the item, with its escaped fields unescaped, and what follows. */
  function DecodeItem(s: string): (r: Option<(Item, string)>)
    ensures r.Some? ==> |r.value.1| < |s|
  {
    var s1 :- Expect(ItemOpen, s);
    var title :- DecodeField(TitleOpen, TitleClose, s1);
    var link :- DecodeField(LinkOpen, LinkClose, title.1);
    var summary :- DecodeDescription(link.1);
    var pubdate :- DecodeField(PubDateOpen, PubDateClose, summary.1);
    var guid :- DecodeField(GuidOpen, GuidClose, pubdate.1);
    var s2 :- Expect(ItemClose, guid.1);
    Some((Item(Unescape(title.0), Unescape(link.0), Unescape(summary.0), Unescape(pubdate.0), guid.0), s2))
  }

  /** The optional description line: its text, or "" when the next line is not a description. */
  function DecodeDescription(s: string): (r: Option<(string, string)>)
    ensures r.Some? ==> |r.value.1| <= |s|
  {
    if DescriptionOpen <= s then DecodeField(DescriptionOpen, DescriptionClose, s) else Some(("", s))
  }

  /** The `<item>` blocks at the front of `s`, in order, and what follows them. */
  function DecodeItems(s: string): Option<(seq<Item>, string)>
    decreases |s|
  {
    if ItemOpen <= s then
      var first :- DecodeItem(s);
      var more :- DecodeItems(first.1);
      Some(([first.0] + more.0, more.1))
    else
      Some(([], s))
  }

  /** The channel link and the items of a whole document; `None` if it is not laid out as written. */
  function DecodeRss(doc: string): Option<(string, seq<Item>)> {
    var s1 :- Expect(Prolog + ChannelOpen, doc);
    var (pageLink, s2) := TakeText(s1);
    var s3 :- Expect(ChannelClose, s2);
    var items :- DecodeItems(s3);
    var s4 :- Expect(Footer, items.1);
    if s4 == [] then Some((pageLink, items.0)) else None
  }

  lemma ExpectOf(lit: string, rest: string)
    ensures Expect(lit, lit + rest) == Some(rest)
  {
    assert lit <= lit + rest;
    assert (lit + rest)[|lit|..] == rest;
  }

  lemma {:induction false} TakeTextOf(text: string, rest: string)
    requires '<' !in text && (rest == [] || rest[0] == '<')
    ensures TakeText(text + rest) == (text, rest)
  {
    if text == [] {
      assert text + rest == rest;
    } else {
      assert (text + rest)[1..] == text[1..] + rest;
      TakeTextOf(text[1..], rest);
      assert [text[0]] + text[1..] == text;
    }
  }

  lemma FieldOf(open: string, text: string, close: string, tail: string)
    requires '<' !in text && close != [] && close[0] == '<'
    ensures DecodeField(open, close, Line(open, text, close) + tail) == Some((text, tail))
  {
    assert Line(open, text, close) + tail == open + (text + (close + tail));
    ExpectOf(open, text + (close + tail));
    TakeTextOf(text, close + tail);
    ExpectOf(close, tail);
  }

  lemma ConcatCons(x: string, q: seq<string>)
    ensures Concat([x] + q) == x + Concat(q)
  {
    assert ([x] + q)[1..] == q;
  }

  /** A line of escaped character data at the front of the fragments reads back as its text. */
  lemma EscapedLineOf(open: string, text: string, close: string, q: seq<string>)
    requires close != [] && close[0] == '<'
    ensures DecodeField(open, close, Concat([Line(open, Escape(Some(text)), close)] + q))
      == Some((Escape(Some(text)), Concat(q)))
    ensures Unescape(Escape(Some(text))) == text
  {
    EscapeCorrect(Some(text));
    ConcatCons(Line(open, Escape(Some(text)), close), q);
    FieldOf(open, Escape(Some(text)), close, Concat(q));
  }

  /** The description line is read back when it was written, and an absent one reads as "". */
  lemma DescriptionRoundTrip(it: Item, q5: seq<string>)
    ensures var q4 := [Line(PubDateOpen, Escape(Some(it.pubdate)), PubDateClose)] + q5;
      DecodeDescription(Concat(ItemDescription(it) + q4)) == Some((Escape(Some(it.summary)), Concat(q4)))
  {
    var q4 := [Line(PubDateOpen, Escape(Some(it.pubdate)), PubDateClose)] + q5;
    ConcatCons(Line(PubDateOpen, Escape(Some(it.pubdate)), PubDateClose), q5);
    if it.summary != "" {
      var dl := Line(DescriptionOpen, Escape(Some(it.summary)), DescriptionClose);
      ConcatCons(dl, q4);
      EscapedLineOf(DescriptionOpen, it.summary, DescriptionClose, q4);
    } else {
      assert ItemDescription(it) + q4 == q4;
      assert Concat(q4)[7] == PubDateOpen[7];
      assert !(DescriptionOpen <= Concat(q4));
    }
  }

  lemma ItemPartsSplit(it: Item, rest: seq<string>)
    ensures ItemParts(it) + rest
      == [ItemOpen] + ([Line(TitleOpen, Escape(Some(it.title)), TitleClose)]
         + ([Line(LinkOpen, Escape(Some(it.link)), LinkClose)]
         + (ItemDescription(it)
         + ([Line(PubDateOpen, Escape(Some(it.pubdate)), PubDateClose)]
         + ([Line(GuidOpen, it.guid, GuidClose)]
         + ([ItemClose] + rest))))))
  {
  }

  /** Each item block reads back as the item it was written from. */
  lemma ItemRoundTrip(it: Item, rest: seq<string>)
    requires '<' !in it.guid
    ensures DecodeItem(Concat(ItemParts(it) + rest)) == Some((it, Concat(rest)))
  {
    var q6 := [ItemClose] + rest;
    var q5 := [Line(GuidOpen, it.guid, GuidClose)] + q6;
    var q4 := [Line(PubDateOpen, Escape(Some(it.pubdate)), PubDateClose)] + q5;
    var q3 := ItemDescription(it) + q4;
    var q2 := [Line(LinkOpen, Escape(Some(it.link)), LinkClose)] + q3;
    var q1 := [Line(TitleOpen, Escape(Some(it.title)), TitleClose)] + q2;
    ItemPartsSplit(it, rest);
    var s := Concat(ItemParts(it) + rest);
    assert Expect(ItemOpen, s) == Some(Concat(q1)) by {
      ConcatCons(ItemOpen, q1);
      ExpectOf(ItemOpen, Concat(q1));
    }
    EscapedLineOf(TitleOpen, it.title, TitleClose, q2);
    EscapedLineOf(LinkOpen, it.link, LinkClose, q3);
    DescriptionRoundTrip(it, q5);
    EscapeCorrect(Some(it.summary));
    EscapedLineOf(PubDateOpen, it.pubdate, PubDateClose, q5);
    assert DecodeField(GuidOpen, GuidClose, Concat(q5)) == Some((it.guid, Concat(q6))) by {
      ConcatCons(Line(GuidOpen, it.guid, GuidClose), q6);
      FieldOf(GuidOpen, it.guid, GuidClose, Concat(q6));
    }
    assert Expect(ItemClose, Concat(q6)) == Some(Concat(rest)) by {
      ConcatCons(ItemClose, rest);
      ExpectOf(ItemClose, Concat(rest));
    }
  }

  /** A fragment list that starts with an item block begins with the `<item>` line. */
  lemma ItemPartsStartItem(it: Item, rest: seq<string>)
    ensures ItemOpen <= Concat(ItemParts(it) + rest)
  {
    assert ItemParts(it) + rest == [ItemOpen] + (ItemParts(it)[1..] + rest);
    ConcatCons(ItemOpen, ItemParts(it)[1..] + rest);
  }

  /** Guids are written unescaped; they can be read back when none holds a `<`. */
  predicate ReadableGuids(items: seq<Item>) {
    forall k :: 0 <= k < |items| ==> '<' !in items[k].guid
  }

  /** The item blocks read back as the items, in order, when what follows is not an item. */
  lemma {:induction false} ItemsRoundTrip(items: seq<Item>, rest: seq<string>)
    requires ReadableGuids(items)
    requires !(ItemOpen <= Concat(rest))
    ensures DecodeItems(Concat(ItemsParts(items) + rest)) == Some((items, Concat(rest)))
    decreases |items|
  {
    if items == [] {
      assert ItemsParts(items) + rest == rest;
    } else {
      ReadableGuidsTail(items);
      ItemsRoundTrip(items[1..], rest);
      ItemsRoundTripCons(items, rest);
    }
  }

  lemma ReadableGuidsTail(items: seq<Item>)
    requires items != [] && ReadableGuids(items)
    ensures ReadableGuids(items[1..]) && '<' !in items[0].guid
  {
    assert forall k :: 0 <= k < |items[1..]| ==> items[1..][k] == items[k + 1];
  }

  lemma ItemsRoundTripCons(items: seq<Item>, rest: seq<string>)
    requires items != [] && '<' !in items[0].guid
    requires DecodeItems(Concat(ItemsParts(items[1..]) + rest)) == Some((items[1..], Concat(rest)))
    ensures DecodeItems(Concat(ItemsParts(items) + rest)) == Some((items, Concat(rest)))
  {
    var more := ItemsParts(items[1..]) + rest;
    assert ItemsParts(items) + rest == ItemParts(items[0]) + more by {
      ItemsPartsCons(items);
      AppendAssoc(ItemParts(items[0]), ItemsParts(items[1..]), rest);
    }
    DecodeItemsCons(items[0], more, items[1..], Concat(rest));
    assert [items[0]] + items[1..] == items;
  }

  /** An item block in front of blocks that read back as `items` adds its item in front. */
  lemma DecodeItemsCons(it: Item, more: seq<string>, items: seq<Item>, after: string)
    requires '<' !in it.guid
    requires DecodeItems(Concat(more)) == Some((items, after))
    ensures DecodeItems(Concat(ItemParts(it) + more)) == Some(([it] + items, after))
  {
    ItemPartsStartItem(it, more);
    ItemRoundTrip(it, more);
  }

  /**
    The document reads back as the page link and exactly the items, in order, when
    neither the page link nor any guid (both written unescaped) contains `<`.
   */
  lemma DocumentRoundTrip(items: seq<Item>, pageLink: string)
    requires '<' !in pageLink && ReadableGuids(items)
    ensures DecodeRss(RssDocument(items, pageLink)) == Some((pageLink, items))
  {
    var rest := Concat(ItemsParts(items) + [Footer]);
    DocumentText(items, pageLink);
    assert Expect(Prolog + ChannelOpen, RssDocument(items, pageLink)) == Some(pageLink + (ChannelClose + rest)) by {
      ExpectOf(Prolog + ChannelOpen, pageLink + (ChannelClose + rest));
    }
    assert (ChannelClose + rest)[0] == LinkClose[0] == '<';
    TakeTextOf(pageLink, ChannelClose + rest);
    ExpectOf(ChannelClose, rest);
    assert DecodeItems(rest) == Some((items, Footer)) by {
      FooterIsNotItem();
      assert !(ItemOpen <= Concat([Footer]));
      ItemsRoundTrip(items, [Footer]);
    }
    ExpectOf(Footer, []);
    assert Footer + [] == Footer;
  }

  lemma FooterIsNotItem()
    ensures Concat([Footer]) == Footer
    ensures !(ItemOpen <= Footer)
  {
    ConcatCons(Footer, []);
    assert [Footer] + [] == [Footer];
    assert Footer[2] != ItemOpen[2];
  }

  /** The document text: prolog and channel start, the page link, the channel end, then the items and footer. */
  lemma DocumentText(items: seq<Item>, pageLink: string)
    ensures RssDocument(items, pageLink)
      == (Prolog + ChannelOpen) + (pageLink + (ChannelClose + Concat(ItemsParts(items) + [Footer])))
  {
    var body := ItemsParts(items) + [Footer];
    assert DocumentParts(items, pageLink) == [Prolog] + ([ChannelHeader(pageLink)] + body);
    ConcatCons(Prolog, [ChannelHeader(pageLink)] + body);
    ConcatCons(ChannelHeader(pageLink), body);
    Regroup(Prolog, ChannelOpen, pageLink, ChannelClose, Concat(body));
  }

  lemma Regroup(a: string, b: string, c: string, d: string, e: string)
    ensures a + ((b + c + d) + e) == (a + b) + (c + (d + e))
  {
  }

  /** An item's fragments hold a `<description>` line exactly when its summary is non-empty. */
  lemma DescriptionIffSummary(it: Item)
    ensures (exists k :: 0 <= k < |ItemParts(it)| && DescriptionOpen <= ItemParts(it)[k]) <==> it.summary != ""
  {
    var ps := ItemParts(it);
    if it.summary != "" {
      assert DescriptionOpen <= ps[3];
    } else {
      forall k | 0 <= k < |ps| ensures !(DescriptionOpen <= ps[k]) {
        assert ps[k][7] != DescriptionOpen[7];
      }
    }
  }

  /** The document is the prolog and channel header, the item blocks in order, and the closing tags. */
  lemma DocumentShape(items: seq<Item>, pageLink: string)
    ensures RssDocument(items, pageLink) == Prolog + ChannelHeader(pageLink) + Concat(ItemsParts(items)) + Footer
  {
    var head, body := [Prolog, ChannelHeader(pageLink)], ItemsParts(items);
    assert DocumentParts(items, pageLink) == (head + body) + [Footer];
    ConcatAppend(head + body, [Footer]);
    ConcatAppend(head, body);
    assert head == [Prolog] + [ChannelHeader(pageLink)];
    ConcatCons(Prolog, [ChannelHeader(pageLink)]);
    ConcatCons(ChannelHeader(pageLink), []);
    assert [ChannelHeader(pageLink)] + [] == [ChannelHeader(pageLink)];
    FooterIsNotItem();
  }

  /** With no items the document is the complete channel with no item blocks. */
  lemma EmptyChannel(pageLink: string)
    ensures RssDocument([], pageLink) == Prolog + ChannelHeader(pageLink) + Footer
  {
    assert DocumentParts([], pageLink) == [Prolog] + ([ChannelHeader(pageLink)] + [Footer]);
    ConcatCons(Prolog, [ChannelHeader(pageLink)] + [Footer]);
    ConcatCons(ChannelHeader(pageLink), [Footer]);
    ConcatCons(Footer, []);
    assert [Footer] + [] == [Footer];
  }
}
