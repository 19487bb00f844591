/**
  `pull`: the first five entries of every feed are normalised into items (a feed
  that raises contributes what it produced before the exception), the items are
  deduplicated by guid keeping the first, and the list is cut to `MAX_ITEMS`.
 */
module Pull {
  import opened Sequences
  import opened Entries
  import opened Deduplication

  /**
    What fetching and parsing one configured feed gives: a failure (the exception
    is reported and the feed skipped) or the parsed entries.
   */
  datatype Feed = FetchFailed | Fetched(entries: seq<Entry>)

  /** How many leading entries of each feed are looked at. */
  const EntriesPerFeed := 5

  /** The items appended while iterating `es`, up to the first entry that raises. */
  function FeedItems(es: seq<Entry>, rt: Runtime): seq<Item> {
    if es == [] then []
    else
      match NormalizeEntry(es[0], rt)
      case Raised => []
      case Skipped => FeedItems(es[1..], rt)
      case Kept(it) => [it] + FeedItems(es[1..], rt)
  }

  /** What one feed adds to `items`. */
  function FeedContribution(feed: Feed, rt: Runtime): seq<Item> {
    if feed.Fetched? then FeedItems(SliceTo(feed.entries, EntriesPerFeed), rt) else []
  }

  /** `items` after the loop over all feeds: each feed's items after those of the feeds before it. */
  function Collected(feeds: seq<Feed>, rt: Runtime): seq<Item> {
    if feeds == [] then [] else Collected(feeds[..|feeds| - 1], rt) + FeedContribution(feeds[|feeds| - 1], rt)
  }

  /**
    `pull()` with the configuration passed in: the feeds' parse results, `MAX_ITEMS`
    and the runtime. The result is the deduplicated collection cut to `maxItems`.
   */
  method Pull(feeds: seq<Feed>, maxItems: int, rt: Runtime) returns (result: seq<Item>)
    ensures result == SliceTo(Dedupe(Collected(feeds, rt)), maxItems)
    ensures 0 <= maxItems ==> |result| <= maxItems
    ensures DistinctGuids(result)
    ensures forall it :: it in result ==> WellFormed(it, rt)
  {
    var items := CollectItems(feeds, rt);
    var uniq := DedupeByGuid(items);
    result := SliceTo(uniq, maxItems);
    DedupeDistinct(items);
    DedupeSubset(items);
    CollectedWellFormed(feeds, rt);
  }

  /** The outer loop of `pull` over the configured feeds (scripts/build_rss.py:34-49). */
  method CollectItems(feeds: seq<Feed>, rt: Runtime) returns (items: seq<Item>)
    ensures items == Collected(feeds, rt)
  {
    items := [];
    for f := 0 to |feeds|
      invariant items == Collected(feeds[..f], rt)
    {
      assert feeds[..f + 1][..f] == feeds[..f];
      if feeds[f].Fetched? {
        items := AppendFeedItems(items, SliceTo(feeds[f].entries, EntriesPerFeed), rt);
      }
    }
    assert feeds[..|feeds|] == feeds;
  }

  /**
    The inner loop of `pull` over the first entries of one feed: each kept item is
    appended to `items`, and an exception ends the loop (scripts/build_rss.py:38-49).
   */
  method AppendFeedItems(items0: seq<Item>, es: seq<Entry>, rt: Runtime) returns (items: seq<Item>)
    ensures items == items0 + FeedItems(es, rt)
  {
    items := items0;
    var j := 0;
    while j < |es|
      invariant 0 <= j <= |es|
      invariant items + FeedItems(es[j..], rt) == items0 + FeedItems(es, rt)
    {
      assert es[j..][1..] == es[j + 1..];
      match NormalizeEntry(es[j], rt) {
        case Raised =>
          return;
        case Skipped =>
        case Kept(it) =>
          AppendAssoc(items, [it], FeedItems(es[j + 1..], rt));
          items := items + [it];
      }
      j := j + 1;
    }
  }

  /** The `seen`/`uniq` loop of `pull` (scripts/build_rss.py:51-57). */
  method DedupeByGuid(items: seq<Item>) returns (uniq: seq<Item>)
    ensures uniq == Dedupe(items)
  {
    var seen: set<string> := {};
    uniq := [];
    for i := 0 to |items|
      invariant uniq == Dedupe(items[..i])
      invariant seen == Guids(uniq)
    {
      var it := items[i];
      assert items[..i + 1][..i] == items[..i] && items[..i + 1][i] == it;
      assert Dedupe(items[..i + 1]) == if it.guid in Guids(uniq) then uniq else uniq + [it];
      if it.guid in seen {
        continue;
      }
      GuidsSnoc(uniq, it);
      seen := seen + {it.guid};
      uniq := uniq + [it];
    }
    assert items[..|items|] == items;

  }

  lemma {:induction false} FeedItemsWellFormed(es: seq<Entry>, rt: Runtime)
    ensures forall it :: it in FeedItems(es, rt) ==> WellFormed(it, rt)
  {
    if es != [] {
      FeedItemsWellFormed(es[1..], rt);
    }
  }

  /** Every collected item has a non-empty stripped title and link, a short summary and its guid. */
  lemma {:induction false} CollectedWellFormed(feeds: seq<Feed>, rt: Runtime)
    ensures forall it :: it in Collected(feeds, rt) ==> WellFormed(it, rt)
  {
    if feeds != [] {
      var init, last := feeds[..|feeds| - 1], feeds[|feeds| - 1];
      if last.Fetched? {
        FeedItemsWellFormed(SliceTo(last.entries, EntriesPerFeed), rt);
      }
      CollectedWellFormed(init, rt);
    }
  }

  /** A feed yields at most one item per entry looked at. */
  lemma {:induction false} FeedItemsBound(es: seq<Entry>, rt: Runtime)
    ensures |FeedItems(es, rt)| <= |es|
  {
    if es != [] {
      FeedItemsBound(es[1..], rt);
    }
  }

  /** Before deduplication there are at most five items per configured feed. */
  lemma {:induction false} CollectedBound(feeds: seq<Feed>, rt: Runtime)
    ensures |Collected(feeds, rt)| <= EntriesPerFeed * |feeds|
  {
    if feeds != [] {
      var last := feeds[|feeds| - 1];
      if last.Fetched? {
        FeedItemsBound(SliceTo(last.entries, EntriesPerFeed), rt);
      }
      CollectedBound(feeds[..|feeds| - 1], rt);
    }
  }

  /**
    When entry `k` raises, the entries after it are not looked at, and the items
    already produced from the entries before it are kept.
   */
  lemma {:induction false} FeedItemsStopAtRaise(es: seq<Entry>, k: nat, rt: Runtime)
    requires k < |es| && NormalizeEntry(es[k], rt).Raised?
    ensures FeedItems(es, rt) == FeedItems(es[..k], rt)
  {
    if k == 0 {
      FeedItemsUnfold(es, rt);
      assert es[..k] == [];
    } else {
      var head := es[..k];
      assert head[1..] == es[1..][..k - 1];
      FeedItemsStopAtRaise(es[1..], k - 1, rt);
      FeedItemsSameHead(es, head, rt);
    }
  }

  /** Two entry lists with the same first entry, whose tails yield the same items, yield the same items. */
  lemma FeedItemsSameHead(a: seq<Entry>, b: seq<Entry>, rt: Runtime)
    requires a != [] && b != [] && a[0] == b[0]
    requires FeedItems(a[1..], rt) == FeedItems(b[1..], rt)
    ensures FeedItems(a, rt) == FeedItems(b, rt)
  {
    FeedItemsUnfold(a, rt);
    FeedItemsUnfold(b, rt);
  }

  /** One step of `FeedItems`: what the first entry yields, then the rest. */
  lemma FeedItemsUnfold(es: seq<Entry>, rt: Runtime)
    requires es != []
    ensures FeedItems(es, rt) == match NormalizeEntry(es[0], rt)
      case Raised => []
      case Skipped => FeedItems(es[1..], rt)
      case Kept(it) => [it] + FeedItems(es[1..], rt)
  {
  }

  /** Each item comes from one of the first five entries of a fetched feed. */
  lemma {:induction false} CollectedFromEntries(feeds: seq<Feed>, rt: Runtime)
    ensures forall it :: it in Collected(feeds, rt) ==>
      exists f, e :: f in feeds && f.Fetched? && e in SliceTo(f.entries, EntriesPerFeed) && NormalizeEntry(e, rt) == Kept(it)
  {
    if feeds != [] {
      var init, last := feeds[..|feeds| - 1], feeds[|feeds| - 1];
      CollectedFromEntries(init, rt);
      if last.Fetched? {
        FeedItemsFromEntries(SliceTo(last.entries, EntriesPerFeed), rt);
      }
      forall it | it in Collected(feeds, rt)
        ensures exists f, e :: f in feeds && f.Fetched? && e in SliceTo(f.entries, EntriesPerFeed) && NormalizeEntry(e, rt) == Kept(it)
      {
        if it in Collected(init, rt) {
          var f, e :| f in init && f.Fetched? && e in SliceTo(f.entries, EntriesPerFeed) && NormalizeEntry(e, rt) == Kept(it);
          assert f in feeds;
        } else {
          var e :| e in SliceTo(last.entries, EntriesPerFeed) && NormalizeEntry(e, rt) == Kept(it);
          assert last in feeds;
        }
      }
    }
  }

  lemma {:induction false} FeedItemsFromEntries(es: seq<Entry>, rt: Runtime)
    ensures forall it :: it in FeedItems(es, rt) ==> exists e :: e in es && NormalizeEntry(e, rt) == Kept(it)
  {
    if es != [] {
      FeedItemsFromEntries(es[1..], rt);
      forall it | it in FeedItems(es, rt) ensures exists e :: e in es && NormalizeEntry(e, rt) == Kept(it) {
        FeedItemsHead(es, it, rt);
      }
    }
  }

  lemma FeedItemsHead(es: seq<Entry>, it: Item, rt: Runtime)
    requires es != [] && it in FeedItems(es, rt)
    requires forall x :: x in FeedItems(es[1..], rt) ==> exists e :: e in es[1..] && NormalizeEntry(e, rt) == Kept(x)
    ensures exists e :: e in es && NormalizeEntry(e, rt) == Kept(it)
  {
    if NormalizeEntry(es[0], rt) == Kept(it) {
      assert es[0] in es;
    } else {
      assert it in FeedItems(es[1..], rt);
      var e :| e in es[1..] && NormalizeEntry(e, rt) == Kept(it);
      assert e in es;
    }
  }

  /** When every feed fails, nothing is collected, and the run yields no items. */
  lemma {:induction false} AllFeedsFailed(feeds: seq<Feed>, maxItems: int, rt: Runtime)
    requires forall k :: 0 <= k < |feeds| ==> feeds[k].FetchFailed?
    ensures Collected(feeds, rt) == []
    ensures SliceTo(Dedupe(Collected(feeds, rt)), maxItems) == []
  {
    if feeds != [] {
      AllFeedsFailed(feeds[..|feeds| - 1], maxItems, rt);
    }
  }

  /**
    An item whose link and pubdate match those of an item seen before it gets the
    same guid, so the deduplication drops it.
   */
  lemma SameLinkAndDateDropped(p: seq<Item>, a: Item, b: Item, rt: Runtime)
    requires a in p && WellFormed(a, rt) && WellFormed(b, rt)
    requires a.link == b.link && a.pubdate == b.pubdate
    ensures Dedupe(p + [b]) == Dedupe(p)
  {
    SameLinkAndDateSameGuid(a, b, rt);
    DedupeDropsRepeat(p, a, b);
  }

  lemma SameLinkAndDateSameGuid(a: Item, b: Item, rt: Runtime)
    requires WellFormed(a, rt) && WellFormed(b, rt)
    requires a.link == b.link && a.pubdate == b.pubdate
    ensures a.guid == b.guid
  {
  }
}
