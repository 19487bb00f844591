/**
  Normalisation of one feed entry into an output item: stripped title and link,
  cleaned summary, pubdate fallback and guid.

  The parts of the runtime the aggregator calls but that are not modelled are
  passed in as a `Runtime`: the SHA-1 hex digest, the HTML-to-text extraction
  (BeautifulSoup with scripts and styles removed) and the formatted current time.
 */
module Entries {
  import opened Wrappers
  import opened Sequences
  import opened Text

  /**
    An attribute read from a parsed entry: absent, present but `None`, or a string.
    `getattr(e, name, default)` yields the default for `Missing` and `None` for `Null`.
   */
  datatype Attr = Missing | Null | Str(text: string)

  datatype Entry = Entry(title: Attr, link: Attr, summary: Attr, published: Attr, updated: Attr)

  /** An output item: the dictionary appended to `items`. */
  datatype Item = Item(title: string, link: string, summary: string, pubdate: string, guid: string)

  datatype Runtime = Runtime(
    sha1Hex: string -> string,   // hexdigest of SHA-1 over the UTF-8 bytes
    htmlText: string -> string,  // text of the HTML with scripts and styles removed, pieces joined by " "
    now: string                  // formatdate(localtime=True) at the time of the run
  )

  /** The number of characters a summary is cut to. */
  const SummaryBudget: nat := 280

  /** Python truthiness of an attribute value: a non-empty string. */
  predicate Truthy(a: Attr) {
    a.Str? && a.text != ""
  }

  /**
    `normalize_pubdate`: `published` if truthy, else `updated` if truthy, else the
    current time; the chosen value is returned verbatim.
   */
  function NormalizePubdate(e: Entry, now: string): (r: string)
    ensures Truthy(e.published) ==> r == e.published.text
    ensures !Truthy(e.published) && Truthy(e.updated) ==> r == e.updated.text
    ensures !Truthy(e.published) && !Truthy(e.updated) ==> r == now
    ensures now != "" ==> r != ""
  {
    if Truthy(e.published) then e.published.text
    else if Truthy(e.updated) then e.updated.text
    else now
  }

  /** The string `make_guid` hashes: `(link or "") + "|" + (pubdate or "")`. */
  function GuidKey(link: Option<string>, pubdate: Option<string>): string {
    link.GetOr("") + "|" + pubdate.GetOr("")
  }

  /** `make_guid`: the SHA-1 hex digest of the key. */
  function MakeGuid(sha1Hex: string -> string, link: Option<string>, pubdate: Option<string>): string {
    sha1Hex(GuidKey(link, pubdate))
  }

  /** The guid depends on link and pubdate only through the key, with `None` read as "". */
  lemma GuidDeterministic(sha1Hex: string -> string, l1: Option<string>, p1: Option<string>, l2: Option<string>, p2: Option<string>)
    requires l1.GetOr("") == l2.GetOr("") && p1.GetOr("") == p2.GetOr("")
    ensures MakeGuid(sha1Hex, l1, p1) == MakeGuid(sha1Hex, l2, p2)
  {
  }

  /**
    When links contain no `|`, different (link, pubdate) pairs give different keys,
    so only a SHA-1 collision can give them the same guid.
   */
  lemma GuidKeyInjective(l1: string, p1: string, l2: string, p2: string)
    requires '|' !in l1 && '|' !in l2
    requires GuidKey(Some(l1), Some(p1)) == GuidKey(Some(l2), Some(p2))
    ensures l1 == l2 && p1 == p2
  {
    var k := GuidKey(Some(l1), Some(p1));
    assert k[|l1|] == '|' && k[|l2|] == '|';
    assert |l1| == |l2|;
    assert l1 == k[..|l1|] == l2;
    assert p1 == k[|l1| + 1..] == p2;
  }

  /** A link containing `|` makes the key ambiguous: two different pairs, one key. */
  lemma GuidKeyAmbiguousWithBar()
    ensures GuidKey(Some("a|b"), Some("c")) == GuidKey(Some("a"), Some("b|c"))
  {
  }

  /**
    `clean_html_summary` after the HTML extraction: a falsy summary gives "", else the
    extracted text with whitespace collapsed, cut to 280 characters. The result is the
    whole collapsed text when it fits and its first 280 characters otherwise; it is
    single-spaced, but the cut may leave one trailing space.
   */
  function CleanSummary(html: Attr, htmlText: string -> string): (r: string)
    ensures !Truthy(html) ==> r == ""
    ensures Truthy(html) ==> r <= Collapse(htmlText(html.text))
    ensures Truthy(html) && |Collapse(htmlText(html.text))| <= SummaryBudget ==> r == Collapse(htmlText(html.text))
    ensures Truthy(html) && |Collapse(htmlText(html.text))| > SummaryBudget ==> |r| == SummaryBudget
    ensures |r| <= SummaryBudget
    ensures SingleSpaced(r)
  {
    if !Truthy(html) then ""
    else
      var text := Collapse(htmlText(html.text));
      CollapseNormalized(htmlText(html.text));
      PrefixSingleSpaced(text, SummaryBudget);
      SliceTo(text, SummaryBudget)
  }

  /** The cut can end on a space: 279 letters, a space, then one more word. */
  lemma SummaryMayEndWithSpace(htmlText: string -> string, html: string)
    requires html != ""
    requires htmlText(html) == seq(279, _ => 'a') + " b"
    ensures var r := CleanSummary(Str(html), htmlText); |r| == SummaryBudget && r[|r| - 1] == ' '
  {
    var text := seq(279, _ => 'a') + " b";
    assert Normalized(text) by {
      assert forall i :: 0 <= i < 279 ==> text[i] == 'a';
      PrintableIsNotSpace('a');
      PrintableIsNotSpace('b');
      assert text[279] == ' ' && text[280] == 'b';
    }
    CollapseOfNormalized(text);
  }

  /** What the loop body yields for one entry: an exception, a skip, or an item. */
  datatype Outcome = Raised | Skipped | Kept(item: Item)

  /** `getattr(e, name, "")` followed by `.strip()`; `None` has no `strip`. */
  function StrippedAttr(a: Attr): string
    requires !a.Null?
  {
    if a.Str? then Strip(a.text) else ""
  }

  /** Every item the aggregator produces satisfies this. */
  predicate WellFormed(it: Item, rt: Runtime) {
    it.title != "" && Strip(it.title) == it.title
    && it.link != "" && Strip(it.link) == it.link
    && |it.summary| <= SummaryBudget && SingleSpaced(it.summary)
    && it.guid == MakeGuid(rt.sha1Hex, Some(it.link), Some(it.pubdate))
  }

  /**
    The body of the inner loop of `pull` for one entry: a `None` title or link raises;
    an empty stripped title or link skips the entry; otherwise the item is built.
   */
  function NormalizeEntry(e: Entry, rt: Runtime): (o: Outcome)
    ensures o.Raised? <==> e.title.Null? || e.link.Null?
    ensures o.Skipped? <==> !o.Raised? && (StrippedAttr(e.title) == "" || StrippedAttr(e.link) == "")
    ensures o.Kept? ==> WellFormed(o.item, rt)
    ensures o.Kept? ==> o.item.title == StrippedAttr(e.title) && o.item.link == StrippedAttr(e.link)
                        && o.item.pubdate == NormalizePubdate(e, rt.now)
                        && o.item.summary == CleanSummary(e.summary, rt.htmlText)
  {
    if e.title.Null? || e.link.Null? then Raised
    else
      var title := StrippedAttr(e.title);
      var link := StrippedAttr(e.link);
      if title == "" || link == "" then Skipped
      else
        var pubdate := NormalizePubdate(e, rt.now);
        StripStripped(title);
        StripStripped(link);
        Kept(Item(title, link, CleanSummary(e.summary, rt.htmlText), pubdate, MakeGuid(rt.sha1Hex, Some(link), Some(pubdate))))
  }
}
