# RSS aggregator core, modelled in Dafny

`scripts/build_rss.py` builds an RSS 2.0 feed. It reads a list of source feeds and looks at the first five entries of each. Every usable entry becomes an item with:

- a stripped title and link;
- a cleaned summary, whose whitespace is collapsed and which is cut to 280 characters;
- a publication date, taken from `published`, then `updated`, then the current time;
- a guid, the SHA-1 of `link|pubdate`.

Items are then deduplicated by guid, keeping the first, and the list is cut to `MAX_ITEMS`. Finally the items are serialised as an RSS document: a fixed channel header, then one `<item>` block per item, then the closing tags. Title, link, description and date are escaped as XML character data.

The model has eight modules:

- `Wrappers`: an `Option` type.
- `Sequences`: Python's slice `s[:n]`, used for the summary cut, the first five entries and the `MAX_ITEMS` cap, plus two facts about concatenation.
- `Text`: Python's `str.strip()`, `str.split()` and `" ".join`, with CPython's whitespace set.
- `XmlEscape`: `escape` as three `str.replace` passes. It also has an entity-wise reference definition and an unescaper that inverts it.
- `Entries`: the entry, item and runtime data, and the per-entry normalisation (`normalize_pubdate`, `make_guid`, the summary clean-up, and the body of the inner loop of `pull`).
- `Deduplication`: the first-seen deduplication as a function of the list, with its properties.
- `Pull`: `pull` as methods with the source's loops, each proved equal to a specification function.
- `Rss`: `build_rss` as a method that appends fragments to a parts list. It is proved equal to a document function. A reader for the document layout (`DecodeRss`) shows that the serialisation loses nothing: from the text it recovers the channel link and every item, in order.

The parts of the runtime that the script calls but that are not modelled are fields of a `Runtime` value:

- `sha1Hex`, the SHA-1 hex digest;
- `htmlText`, BeautifulSoup's text extraction with scripts and styles removed;
- `now`, the formatted current time.

The configuration is passed in as parameters: the parsed feeds, `MAX_ITEMS` and `PAGE_LINK`.

An entry attribute is `Missing`, `Null` (present but `None`) or a string. A `Null` title or link makes `.strip()` raise. That exception ends the feed's loop, and the items already appended from that feed stay in the list.

## Model

| member | source | states |
|---|---|---|
| Text.Strip | scripts/build_rss.py:39-40 | The result of `strip` has no whitespace at either end. It is empty exactly when the input is all whitespace. |
| Text.StripIsInfix | scripts/build_rss.py:39-40 | `strip` removes only a whitespace prefix and a whitespace suffix. The result is the contiguous piece of the input that starts where the left-stripped text starts. |
| Text.StripStripped | scripts/build_rss.py:39-40 | Stripping a stripped string changes nothing. |
| Text.CollapseNormalized | scripts/build_rss.py:16 | The collapsed text uses only single plain spaces between words, and no space at either end. |
| Text.WordsOfJoin | scripts/build_rss.py:16 | Splitting non-empty, whitespace-free words joined by single spaces gives back exactly those words. |
| Text.CollapseKeepsWords | scripts/build_rss.py:16 | The collapsed text has exactly the words of the input, all of them, in order. |
| Text.CollapseOfNormalized | scripts/build_rss.py:16 | Collapsing text that is already normalised returns it unchanged. |
| Text.CollapseIdempotent | scripts/build_rss.py:16 | Collapsing twice is the same as collapsing once. |
| Text.PrefixSingleSpaced | scripts/build_rss.py:16-17 | Cutting collapsed text keeps it single-spaced. A trailing space may remain. |
| XmlEscape.Escape | scripts/build_rss.py:30-31 | `None` and the empty string escape to the empty string. |
| XmlEscape.EscapeCorrect | scripts/build_rss.py:30-31 | The output contains no `<` or `>`. Every `&` in it begins `&amp;`, `&lt;` or `&gt;`. Unescaping in the reverse order recovers the input exactly, with `None` read as "". |
| XmlEscape.EscapeIsEntityWise | scripts/build_rss.py:31 | The three replace passes, `&` first, equal replacing each character by its reference in one pass. No reference is escaped twice. |
| XmlEscape.UnescapeEscapeEach | scripts/build_rss.py:31 | The entity-wise escaping is undone by the reverse passes in reverse order. |
| XmlEscape.EscapeInjective | scripts/build_rss.py:30-31 | Different strings escape to different text. |
| Entries.NormalizePubdate | scripts/build_rss.py:19-24 | The pubdate is `published` if truthy, otherwise `updated` if truthy, otherwise the current time, each returned verbatim. It is non-empty whenever the time string is. |
| Entries.GuidDeterministic | scripts/build_rss.py:26-28 | The guid depends only on `link + "\|" + pubdate`, with `None` read as "". Equal pairs give equal guids. |
| Entries.GuidKeyInjective | scripts/build_rss.py:27 | When neither link contains `\|`, different (link, pubdate) pairs hash different keys. |
| Entries.GuidKeyAmbiguousWithBar | scripts/build_rss.py:27 | A link containing `\|` can make two different pairs share one key. |
| Entries.CleanSummary | scripts/build_rss.py:11-17 | A falsy summary gives "". Otherwise the result is a prefix of the collapsed extracted text: all of it when it has at most 280 characters, and exactly its first 280 characters otherwise. The result is single-spaced. |
| Entries.SummaryMayEndWithSpace | scripts/build_rss.py:16-17 | There is an extracted text whose cleaned summary is 280 characters long and ends with a space. |
| Entries.NormalizeEntry | scripts/build_rss.py:39-46 | A `None` title or link raises. An entry whose stripped title or stripped link is empty is skipped. Otherwise the item has the stripped title and link, the cleaned summary, the chosen pubdate and the guid of (link, pubdate). |
| Deduplication.DedupeGuids | scripts/build_rss.py:51-57 | Every guid of the input appears in the result, and no other guid does. |
| Deduplication.DedupeDistinct | scripts/build_rss.py:51-57 | No two items of the result share a guid. |
| Deduplication.DedupeFirstSeen | scripts/build_rss.py:51-57 | The result is a subsequence of the input, in input order. The item kept for each guid is the first item of the input with that guid. |
| Deduplication.DedupeDropsRepeat | scripts/build_rss.py:54-55 | An item whose guid was already seen adds nothing. |
| Deduplication.DedupeSubset | scripts/build_rss.py:51-57 | Every item of the result is an item of the input. |
| Deduplication.DedupeOfDistinct | scripts/build_rss.py:51-57 | A list whose guids are already distinct is returned unchanged. |
| Deduplication.DedupeIdempotent | scripts/build_rss.py:51-57 | Deduplicating the output again changes nothing. |
| Sequences.SliceTo | scripts/build_rss.py:58 | Python's `s[:n]` is a prefix of the sequence. For `n >= 0` its length is `min(n, \|s\|)`: the whole sequence when it fits, exactly `n` elements otherwise. For negative `n` it drops `-n` elements from the end. The same slice cuts the summary (line 17) and takes the first five entries (line 38). |
| Pull.Pull | scripts/build_rss.py:33-58 | The result is the deduplicated collected items, cut to `MAX_ITEMS`. There are at most `MAX_ITEMS` of them when that is non-negative. Their guids are distinct, and every item is well formed. |
| Pull.CollectItems | scripts/build_rss.py:34-49 | The feed loop yields each fetched feed's items in feed order. A failed feed contributes nothing. |
| Pull.AppendFeedItems | scripts/build_rss.py:38-49 | The entry loop appends the items of the entries before the first one that raises, skipping filtered entries. |
| Pull.DedupeByGuid | scripts/build_rss.py:51-57 | The `seen`/`uniq` loop computes the first-seen deduplication. |
| Pull.CollectedWellFormed | scripts/build_rss.py:39-46 | Every collected item has a non-empty stripped title and link, a single-spaced summary of at most 280 characters, and the guid of its link and pubdate. |
| Pull.CollectedBound | scripts/build_rss.py:38 | Before deduplication there are at most five items per configured feed. |
| Pull.FeedItemsStopAtRaise | scripts/build_rss.py:47-49 | When an entry raises, the feed keeps the items from the entries before it and looks at none after it. |
| Pull.CollectedFromEntries | scripts/build_rss.py:35-46 | Every collected item is the normalisation of one of the first five entries of a fetched feed. |
| Pull.AllFeedsFailed | scripts/build_rss.py:47-49 | When every feed fails, nothing is collected and the result is empty. |
| Pull.SameLinkAndDateDropped | scripts/build_rss.py:45-57 | A later item with the same link and pubdate as an earlier one gets the same guid, so the deduplication drops it. |
| Rss.BuildRss | scripts/build_rss.py:60-74 | The parts loop produces exactly the document: prolog, channel header, each item's fragments in order, and the footer, joined. |
| Rss.DocumentShape | scripts/build_rss.py:61-74 | The document starts with the XML prolog and channel header, then the item blocks in input order, and ends with `  </channel>\n</rss>\n`. |
| Rss.EmptyChannel | scripts/build_rss.py:61-74 | An empty item list still yields the complete channel document. |
| Rss.DescriptionIffSummary | scripts/build_rss.py:68-69 | An item's block holds a `<description>` line exactly when its summary is non-empty. |
| Rss.ItemRoundTrip | scripts/build_rss.py:65-72 | Reading one item block back gives the item: its unescaped title, link, summary and pubdate, and its guid. This holds when the guid contains no `<`. |
| Rss.DocumentRoundTrip | scripts/build_rss.py:60-74 | Reading the whole document back gives the page link and exactly the input items, one block each, in order. This holds when the page link and the guids contain no `<`. |

## Left out

- Fetching and parsing a feed with `feedparser` (line 37) is I/O and a foreign library. A feed is given as its parse result: a failure or a list of entries.
- HTML parsing and script/style removal with BeautifulSoup (lines 14-15) is a foreign library. It is the uninterpreted `Runtime.htmlText`. Only the collapse and the cut after it are modelled.
- The SHA-1 computation (line 28) is the uninterpreted `Runtime.sha1Hex`. No cryptographic property is assumed, so distinct keys are not claimed to give distinct guids.
- `formatdate(localtime=True)` (line 24) depends on the clock and time zone. It is the single string `Runtime.now`, shared by the whole run. The script reads the clock again for every entry without a date, reached from line 44. So in the model, two dateless entries with the same link always share a guid, and the second is dropped. In the script that happens only when both clock reads format to the same second.
- Reading `PAGE_LINK`, `MAX_ITEMS` and `SOURCE_FEEDS` from the environment (lines 7-9) is not modelled. They are parameters; `SOURCE_FEEDS` is represented by the parsed feeds themselves.
- Printing the error to stderr (line 48), writing `rss.xml`, the final message and `main` (lines 76-84) are I/O.
- Most exceptions are not modelled. The only exception the model raises is `None.strip()` on a title or link. These are not modelled:
  - an error from the HTML parser;
  - an error from a non-string attribute value;
  - the UTF-8 encoding error in `make_guid` (line 28), which a lone surrogate in the link or pubdate would raise. A Dafny `char` cannot hold a surrogate.
- Attribute values that are neither absent, `None` nor strings are not modelled.
- The loops of `pull` are split across `CollectItems`, `AppendFeedItems` and `DedupeByGuid`. Between them they hold the same loops, in the same order.
- Rss.DocumentRoundTrip: `PAGE_LINK` and the guid are written without escaping (lines 63 and 71), so the round trip is stated only for values without `<`. The reader takes the page link as it stands, so the round trip also holds when `PAGE_LINK` contains `&`. The script then writes a bare `&` inside `<link>`, which is not well-formed XML. The round trip therefore does not show that the output is well-formed. `DecodeRss` is a reader for this layout, not a general RSS parser, and is not part of the script.
