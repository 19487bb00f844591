/**
  First-seen deduplication of items by guid: the `seen`/`uniq` loop of `pull`,
  stated as a function of the input list.
 */
module Deduplication {
  import opened Entries

  function Guids(s: seq<Item>): set<string> {
    set it | it in s :: it.guid
  }

  predicate DistinctGuids(s: seq<Item>) {
    forall i, j :: 0 <= i < j < |s| ==> s[i].guid != s[j].guid
  }

  /**
    `uniq` after the loop has visited `s`: each item is appended unless an item
    with its guid was appended before.
   */
  function Dedupe(s: seq<Item>): seq<Item> {
    if s == [] then []
    else
      var d := Dedupe(s[..|s| - 1]);
      var x := s[|s| - 1];
      if x.guid in Guids(d) then d else d + [x]
  }

  /**
    `d` is the subsequence of `s` at the strictly increasing positions `ix`, and
    each position holds the first item of `s` with that guid.
   */
  predicate FirstSeenSubsequence(d: seq<Item>, s: seq<Item>, ix: seq<nat>) {
    |ix| == |d|
    && (forall k :: 0 <= k < |ix| ==> ix[k] < |s| && s[ix[k]] == d[k])
    && (forall k, j :: 0 <= k < |ix| && 0 <= j < ix[k] ==> s[j].guid != d[k].guid)
    && (forall k1, k2 :: 0 <= k1 < k2 < |ix| ==> ix[k1] < ix[k2])
  }

  lemma GuidsSnoc(s: seq<Item>, x: Item)
    ensures Guids(s + [x]) == Guids(s) + {x.guid}
  {
    assert forall it :: it in s + [x] <==> it in s || it == x;
  }

  lemma GuidsPrefix(s: seq<Item>)
    requires s != []
    ensures Guids(s) == Guids(s[..|s| - 1]) + {s[|s| - 1].guid}
  {
    assert s == s[..|s| - 1] + [s[|s| - 1]];
    GuidsSnoc(s[..|s| - 1], s[|s| - 1]);
  }

  /** Every guid of the input appears in the result, and no other. */
  lemma {:induction false} DedupeGuids(s: seq<Item>)
    ensures Guids(Dedupe(s)) == Guids(s)
  {
    if s != [] {
      var p, x := s[..|s| - 1], s[|s| - 1];
      DedupeGuids(p);
      GuidsPrefix(s);
      if x.guid !in Guids(Dedupe(p)) {
        GuidsSnoc(Dedupe(p), x);
      }
    }
  }

  /** No two items of the result share a guid. */
  lemma {:induction false} DedupeDistinct(s: seq<Item>)
    ensures DistinctGuids(Dedupe(s))
  {
    if s != [] {
      var p, x := s[..|s| - 1], s[|s| - 1];
      DedupeDistinct(p);
      var d := Dedupe(p);
      if x.guid !in Guids(d) {
        forall i, j | 0 <= i < j < |d + [x]| ensures (d + [x])[i].guid != (d + [x])[j].guid {
          if j == |d| {
            assert d[i] in d;
          }
        }
      }
    }
  }

  lemma FirstSeenExtend(d: seq<Item>, p: seq<Item>, ix: seq<nat>, x: Item)
    requires FirstSeenSubsequence(d, p, ix)
    ensures FirstSeenSubsequence(d, p + [x], ix)
  {
    assert forall j :: 0 <= j < |p| ==> (p + [x])[j] == p[j];
  }

  lemma FirstSeenAppend(d: seq<Item>, p: seq<Item>, ix: seq<nat>, x: Item)
    requires FirstSeenSubsequence(d, p, ix)
    requires x.guid !in Guids(p)
    ensures FirstSeenSubsequence(d + [x], p + [x], ix + [|p|])
  {
    var s, ix2 := p + [x], ix + [|p|];
    forall j | 0 <= j < |p| ensures s[j].guid != x.guid {
      assert s[j] == p[j] && p[j] in p;
    }
    assert forall j :: 0 <= j < |p| ==> s[j] == p[j];
  }

  /**
    The result is a subsequence of the input in input order, and the item kept for
    each guid is the first item of the input with that guid.
   */
  lemma {:induction false} DedupeFirstSeen(s: seq<Item>)
    ensures exists ix :: FirstSeenSubsequence(Dedupe(s), s, ix)
  {
    if s == [] {
      assert Dedupe(s) == [];
      assert FirstSeenSubsequence([], [], []);
    } else {
      var p, x := s[..|s| - 1], s[|s| - 1];
      assert s == p + [x];
      DedupeFirstSeen(p);
      var d := Dedupe(p);
      var ix: seq<nat> :| FirstSeenSubsequence(d, p, ix);
      if x.guid in Guids(d) {
        assert Dedupe(s) == d;
        FirstSeenExtend(d, p, ix, x);
      } else {
        DedupeGuids(p);
        assert Dedupe(s) == d + [x];
        FirstSeenAppend(d, p, ix, x);
      }
    }
  }

  /** An item whose guid is that of an earlier item is dropped. */
  lemma DedupeDropsRepeat(p: seq<Item>, a: Item, x: Item)
    requires a in p && a.guid == x.guid
    ensures Dedupe(p + [x]) == Dedupe(p)
  {
    assert x.guid in Guids(p);
    DedupeGuids(p);
    assert (p + [x])[..|p|] == p;
  }

  /** Every item of the result is an item of the input. */
  lemma DedupeSubset(s: seq<Item>)
    ensures forall it :: it in Dedupe(s) ==> it in s
  {
    DedupeFirstSeen(s);
    var ix: seq<nat> :| FirstSeenSubsequence(Dedupe(s), s, ix);
    forall it | it in Dedupe(s) ensures it in s {
      var k :| 0 <= k < |Dedupe(s)| && Dedupe(s)[k] == it;
      assert s[ix[k]] == it;
    }
  }

  /** A list whose guids are already distinct is left as it is. */
  lemma {:induction false} DedupeOfDistinct(s: seq<Item>)
    requires DistinctGuids(s)
    ensures Dedupe(s) == s
  {
    if s != [] {
      var p, x := s[..|s| - 1], s[|s| - 1];
      DistinctPrefix(s);
      DedupeOfDistinct(p);
      assert p + [x] == s;
    }
  }

  /** Dropping the last item of a list with distinct guids: the rest is distinct and lacks its guid. */
  lemma DistinctPrefix(s: seq<Item>)
    requires s != [] && DistinctGuids(s)
    ensures DistinctGuids(s[..|s| - 1]) && s[|s| - 1].guid !in Guids(s[..|s| - 1])
  {
    var p, x := s[..|s| - 1], s[|s| - 1];
    forall it | it in p ensures it.guid != x.guid {
      var i :| 0 <= i < |p| && p[i] == it;
      assert s[i] == it;
    }
  }

  /** Deduplicating the output again changes nothing. */
  lemma DedupeIdempotent(s: seq<Item>)
    ensures Dedupe(Dedupe(s)) == Dedupe(s)
  {
    DedupeDistinct(s);
    DedupeOfDistinct(Dedupe(s));
  }
}
