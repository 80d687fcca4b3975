/** First-seen deduplication of the news results. */
module NewsDedupe {
  import opened Common
  import opened Ordering
  import opened Fusion
  import opened NewsFusion

  datatype First = First(position: nat, order: nat, item: NewsItem)

  /** What is kept of a key: its first row, with the row's page position and the key's place. */
  function Kept(n: NewsRow, order: nat): First {
    First(n.position, order,
          NewsItem(0, n.title, n.url, n.source, n.relativeDate, n.thumbnail, Finite(1.0), 1))
  }

  ghost function KeptEntries(key: KeyOf, outputs: seq<Option<seq<NewsRow>>>): set<First> {
    var ms := Hits(key, outputs);
    set i | 0 <= i < |FirstSeen(ms)| && Group(ms, FirstSeen(ms)[i]) != [] :: Kept(Group(ms, FirstSeen(ms)[i])[0], i)
  }

  /** Page position, then first-seen order, then URL. */
  predicate FirstBefore(a: First, b: First) {
    || a.position < b.position
    || (a.position == b.position
        && (a.order < b.order || (a.order == b.order && StrLess(a.item.url, b.item.url))))
  }

  function Renumbered(entries: seq<First>): seq<NewsItem> {
    seq(|entries|, i requires 0 <= i < |entries| => entries[i].item.(position := i + 1))
  }

  lemma FirstBeforeIsStrictOrder()
    ensures StrictOrder(FirstBefore)
  {
    forall a: First ensures !StrLess(a.item.url, a.item.url) {
      StrLessIrreflexive(a.item.url);
    }
    forall a: First, b: First, c: First | StrLess(a.item.url, b.item.url) && StrLess(b.item.url, c.item.url)
      ensures StrLess(a.item.url, c.item.url)
    {
      StrLessTransitive(a.item.url, b.item.url, c.item.url);
    }
  }

  ghost predicate IsFirstTable(table: map<string, First>, ms: seq<Keyed<NewsRow>>) {
    && |FirstSeen(ms)| == |table|
    && (forall c :: c in table <==> c in FirstSeen(ms))
    && forall c :: c in table ==>
         && Group(ms, c) != []
         && table[c].order < |FirstSeen(ms)| && FirstSeen(ms)[table[c].order] == c
         && table[c] == Kept(Group(ms, c)[0], table[c].order)
  }

  /** A row of a known key changes nothing. */
  lemma KnownKeyStep(table: map<string, First>, ms: seq<Keyed<NewsRow>>, m: Keyed<NewsRow>)
    requires IsFirstTable(table, ms) && m.key in table
    ensures IsFirstTable(table, ms + [m])
  {
    hide Group, FirstSeen, Kept;
    OtherGroupsStay(table.Keys, ms, m);
    FirstSeenSnoc(ms, m);
    GroupSnoc(ms, m, m.key);
  }

  /** A row of a new key becomes its entry and takes the next order number. */
  lemma NewKeyStep(table: map<string, First>, ms: seq<Keyed<NewsRow>>, m: Keyed<NewsRow>)
    requires IsFirstTable(table, ms) && m.key !in table
    ensures IsFirstTable(table[m.key := Kept(m.row, |table|)], ms + [m])
  {
    FirstSeenMembers(ms);
    GroupNonEmpty(ms, m.key);
    hide Group, FirstSeen, Keys;
    OtherGroupsStay(table.Keys, ms, m);
    FirstSeenSnoc(ms, m);
    GroupSnoc(ms, m, m.key);
    assert Kept(m.row, |table|).order == |table|;
    hide Kept;
  }

  /** Whatever order the hash map lists its entries in, the sorted listing is the strictly sorted one. */
  lemma SortedFirsts(key: KeyOf, outputs: seq<Option<seq<NewsRow>>>, table: map<string, First>,
                     order: seq<string>, values: seq<First>)
    requires IsFirstTable(table, Hits(key, outputs))
    requires IsListing(table, order, values)
    ensures StrictlySorted(FirstBefore, SortBy(FirstBefore, values))
    ensures forall x :: x in SortBy(FirstBefore, values) <==> x in KeptEntries(key, outputs)
  {
    hide Group, FirstSeen, Hits, SortBy, Kept;
    var ms := Hits(key, outputs);
    forall i, j | 0 <= i < j < |values| ensures values[i].order != values[j].order {
      assert FirstSeen(ms)[values[i].order] == order[i] && FirstSeen(ms)[values[j].order] == order[j];
    }
    FirstBeforeIsStrictOrder();
    assert Comparable(FirstBefore, values);
    SortBySorts(FirstBefore, values);
    ListedFirsts(key, outputs, table, order, values);
  }

  lemma ListedFirsts(key: KeyOf, outputs: seq<Option<seq<NewsRow>>>, table: map<string, First>,
                     order: seq<string>, values: seq<First>)
    requires IsFirstTable(table, Hits(key, outputs))
    requires IsListing(table, order, values)
    ensures forall x :: x in values <==> x in KeptEntries(key, outputs)
  {
    hide Group, FirstSeen, Hits;
    var ms := Hits(key, outputs);
    FirstSeenMembers(ms);
    forall x | x in values ensures x in KeptEntries(key, outputs) {
      var i :| 0 <= i < |values| && values[i] == x;
      assert FirstSeen(ms)[x.order] == order[i];
    }
    forall x | x in KeptEntries(key, outputs) ensures x in values {
      var i :| 0 <= i < |FirstSeen(ms)| && Group(ms, FirstSeen(ms)[i]) != []
               && x == Kept(Group(ms, FirstSeen(ms)[i])[0], i);
      var c := FirstSeen(ms)[i];
      assert c in table && table[c].order == i;
      var p :| 0 <= p < |order| && order[p] == c;
      assert values[p] == x;
    }
  }

  ghost predicate IsOrdered(key: KeyOf, outputs: seq<Option<seq<NewsRow>>>, entries: seq<First>) {
    StrictlySorted(FirstBefore, entries) && forall x :: x in entries <==> x in KeptEntries(key, outputs)
  }

  /** The list of results: the kept entries in their strict order, renumbered. */
  ghost predicate IsDedupedNews(key: KeyOf, outputs: seq<Option<seq<NewsRow>>>, out: seq<NewsItem>) {
    exists entries :: IsOrdered(key, outputs, entries) && out == Renumbered(entries)
  }

  method DedupeNewsByUrl(key: KeyOf, outputs: seq<Option<seq<NewsRow>>>) returns (out: seq<NewsItem>)
    ensures IsDedupedNews(key, outputs, out)
  {
    var table: map<string, First> := map[];
    var nextOrder := 0;
    for i := 0 to |outputs|
      invariant IsFirstTable(table, Hits(key, outputs[..i])) && nextOrder == |table|
    {
      NextSubQuery(key, outputs, i);
      if outputs[i].Some? {
        var news := outputs[i].value;
        for j := 0 to |news|
          invariant IsFirstTable(table, HitsSoFar(key, outputs, i, j)) && nextOrder == |table|
        {
          var n := news[j];
          var c := key(n.url);
          ghost var ms, m := HitsSoFar(key, outputs, i, j), Keyed(c, n);
          NextHit(key, outputs, i, j);
          if c in table {
            KnownKeyStep(table, ms, m);
          } else {
            NewKeyStep(table, ms, m);
            table := table[c := Kept(n, nextOrder)];
            nextOrder := nextOrder + 1;
          }
        }
      }
    }
    assert outputs[..|outputs|] == outputs;
    var values := IntoValues(table);
    ghost var order :| IsListing(table, order, values);
    SortedFirsts(key, outputs, table, order, values);
    var sorted := SortBy(FirstBefore, values);
    assert IsOrdered(key, outputs, sorted);
    out := Renumbered(sorted);
  }

  lemma DedupedNewsUnique(key: KeyOf, outputs: seq<Option<seq<NewsRow>>>, a: seq<NewsItem>, b: seq<NewsItem>)
    requires IsDedupedNews(key, outputs, a) && IsDedupedNews(key, outputs, b)
    ensures a == b
  {
    hide KeptEntries, FirstBefore;
    var x :| IsOrdered(key, outputs, x) && a == Renumbered(x);
    var y :| IsOrdered(key, outputs, y) && b == Renumbered(y);
    FirstBeforeIsStrictOrder();
    StrictlySortedUnique(FirstBefore, x, y);
  }
}
