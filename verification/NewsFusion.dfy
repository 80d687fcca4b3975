/** Reciprocal rank fusion of the news results, with recency and first-seen tie-breaks. */
module NewsFusion {
  import opened Common
  import opened Ordering
  import opened Fusion

  /** A news row; its position comes from the page and, unlike a web rank, may be 0. */
  datatype NewsRow = NewsRow(position: nat, title: string, url: string, source: Option<string>,
                             relativeDate: Option<string>, thumbnail: Option<string>)

  datatype NewsItem = NewsItem(position: nat, title: string, url: string, source: Option<string>,
                               relativeDate: Option<string>, thumbnail: Option<string>,
                               score: NewsScore, occurrences: nat)

  /** `1.0 / 0.0` is infinity in `f64`; it arises when both `k` and a position are 0. */
  datatype NewsScore = Finite(value: real) | Infinite

  datatype Entry = Entry(item: NewsItem, bestAge: Option<nat>, order: nat)

  type KeyOf = string -> string

  /** The parse of a relative date into minutes is arbitrary, and may fail. */
  type AgeParser = string -> Option<nat>

  function Plus(a: NewsScore, b: NewsScore): NewsScore {
    if a.Finite? && b.Finite? then Finite(a.value + b.value) else Infinite
  }

  predicate Greater(a: NewsScore, b: NewsScore) {
    b.Finite? && (a.Infinite? || a.value > b.value)
  }

  function Weight(k: nat, position: nat): NewsScore {
    if k + position == 0 then Infinite else Finite(1.0 / (k + position) as real)
  }

  function AgeOf(parser: AgeParser, row: NewsRow): Option<nat> {
    if row.relativeDate.Some? then parser(row.relativeDate.value) else None
  }

  function NewsHits(key: KeyOf, rows: seq<NewsRow>): seq<Keyed<NewsRow>> {
    seq(|rows|, i requires 0 <= i < |rows| => Keyed(key(rows[i].url), rows[i]))
  }

  /** Every news row in traversal order; sub-queries without a news list are skipped. */
  function Hits(key: KeyOf, outputs: seq<Option<seq<NewsRow>>>): seq<Keyed<NewsRow>> {
    if outputs == [] then []
    else (if outputs[0].Some? then NewsHits(key, outputs[0].value) else []) + Hits(key, outputs[1..])
  }

  // ----- What fusion promises for one key -----

  function Score(k: nat, rows: seq<NewsRow>): NewsScore {
    if rows == [] then Finite(0.0)
    else Plus(Score(k, rows[..|rows| - 1]), Weight(k, rows[|rows| - 1].position))
  }

  /** A newer age replaces the best one seen so far. */
  predicate Newer(age: Option<nat>, best: Option<nat>) {
    age.Some? && (best.None? || age.value < best.value)
  }

  /** The row whose fields survive. */
  function Exemplar(parser: AgeParser, rows: seq<NewsRow>): (e: nat)
    requires rows != []
    ensures e < |rows|
  {
    if |rows| == 1 then 0
    else
      var e := Exemplar(parser, rows[..|rows| - 1]);
      if Newer(AgeOf(parser, rows[|rows| - 1]), AgeOf(parser, rows[e])) then |rows| - 1 else e
  }

  function FuseNews(parser: AgeParser, k: nat, rows: seq<NewsRow>, order: nat): Entry
    requires rows != []
  {
    var best := rows[Exemplar(parser, rows)];
    Entry(NewsItem(0, best.title, rows[0].url, best.source, best.relativeDate, best.thumbnail,
                   Score(k, rows), |rows|),
          AgeOf(parser, best), order)
  }

  /** One entry per key, tagged with the key's place in first-mention order. */
  ghost function FusedEntries(key: KeyOf, parser: AgeParser, outputs: seq<Option<seq<NewsRow>>>, k: nat): set<Entry> {
    var ms := Hits(key, outputs);
    set i | 0 <= i < |FirstSeen(ms)| && Group(ms, FirstSeen(ms)[i]) != [] ::
      FuseNews(parser, k, Group(ms, FirstSeen(ms)[i]), i)
  }

  /** Score descending, then the smaller age with unparsed dates last, then first-seen order, then URL. */
  predicate NewsBefore(a: Entry, b: Entry) {
    || Greater(a.item.score, b.item.score)
    || (a.item.score == b.item.score
        && (|| Newer(a.bestAge, b.bestAge)
            || (a.bestAge == b.bestAge
                && (a.order < b.order || (a.order == b.order && StrLess(a.item.url, b.item.url))))))
  }

  /** Positions are reassigned 1..N once the entries are in order. */
  function Renumbered(entries: seq<Entry>): seq<NewsItem> {
    seq(|entries|, i requires 0 <= i < |entries| => entries[i].item.(position := i + 1))
  }

  lemma NewsBeforeIsStrictOrder()
    ensures StrictOrder(NewsBefore)
  {
    forall a: Entry ensures !StrLess(a.item.url, a.item.url) {
      StrLessIrreflexive(a.item.url);
    }
    forall a: Entry, b: Entry, c: Entry | StrLess(a.item.url, b.item.url) && StrLess(b.item.url, c.item.url)
      ensures StrLess(a.item.url, c.item.url)
    {
      StrLessTransitive(a.item.url, b.item.url, c.item.url);
    }
  }

  // ----- Facts about the traversal -----

  lemma {:induction false} HitsSnoc(key: KeyOf, outputs: seq<Option<seq<NewsRow>>>, news: Option<seq<NewsRow>>)
    ensures Hits(key, outputs + [news])
         == Hits(key, outputs) + if news.Some? then NewsHits(key, news.value) else []
  {
    hide NewsHits;
    if outputs == [] {
      assert outputs + [news] == [news] && [news][1..] == [];
      assert Hits(key, [news]) == (if news.Some? then NewsHits(key, news.value) else []) + Hits(key, []);
    } else {
      assert (outputs + [news])[1..] == outputs[1..] + [news] && (outputs + [news])[0] == outputs[0];
      HitsSnoc(key, outputs[1..], news);
      var head := if outputs[0].Some? then NewsHits(key, outputs[0].value) else [];
      assert Hits(key, outputs) == head + Hits(key, outputs[1..]);
      assert Hits(key, outputs + [news]) == head + Hits(key, outputs[1..] + [news]);
    }
  }

  /** `e` is the first row with the smallest parsed age, or the first row when no date parses. */
  ghost predicate IsFreshest(parser: AgeParser, rows: seq<NewsRow>, e: nat) {
    && e < |rows|
    && (forall j :: 0 <= j < |rows| ==> NoOlder(AgeOf(parser, rows[e]), AgeOf(parser, rows[j])))
    && (forall j :: 0 <= j < e ==> !NoOlder(AgeOf(parser, rows[j]), AgeOf(parser, rows[e])))
  }

  /** A date that parses is no older than one that does not; two that parse compare by their minutes. */
  predicate NoOlder(a: Option<nat>, b: Option<nat>) {
    match b
    case None => true
    case Some(y) => match a { case None => false case Some(x) => x <= y }
  }

  lemma {:induction false} ExemplarIsFreshest(parser: AgeParser, rows: seq<NewsRow>)
    requires rows != []
    ensures IsFreshest(parser, rows, Exemplar(parser, rows))
  {
    if |rows| > 1 {
      var front := rows[..|rows| - 1];
      ExemplarIsFreshest(parser, front);
      assert forall j :: 0 <= j < |front| ==> front[j] == rows[j];
    }
  }

  // ----- The hash map and its step -----

  ghost predicate IsNewsTable(table: map<string, Entry>, parser: AgeParser, ms: seq<Keyed<NewsRow>>, k: nat) {
    && |FirstSeen(ms)| == |table|
    && (forall c :: c in table <==> c in FirstSeen(ms))
    && forall c :: c in table ==>
         && Group(ms, c) != []
         && table[c].order < |FirstSeen(ms)| && FirstSeen(ms)[table[c].order] == c
         && table[c] == FuseNews(parser, k, Group(ms, c), table[c].order)
  }

  /** How one row changes the entry of its key; a new key takes the next order number. */
  function Absorb(parser: AgeParser, k: nat, found: Option<Entry>, next: nat, n: NewsRow): Entry {
    var age := AgeOf(parser, n);
    var e := if found.Some? then found.value
             else Entry(NewsItem(0, n.title, n.url, n.source, n.relativeDate, n.thumbnail, Finite(0.0), 0), age, next);
    var counted := e.item.(score := Plus(e.item.score, Weight(k, n.position)), occurrences := e.item.occurrences + 1);
    if Newer(age, e.bestAge) then
      Entry(counted.(title := n.title, source := n.source, relativeDate := n.relativeDate, thumbnail := n.thumbnail),
            age, e.order)
    else Entry(counted, e.bestAge, e.order)
  }

  lemma FuseNewsSnoc(parser: AgeParser, k: nat, rows: seq<NewsRow>, n: NewsRow, order: nat)
    ensures FuseNews(parser, k, rows + [n], order)
         == Absorb(parser, k, if rows == [] then None else Some(FuseNews(parser, k, rows, order)), order, n)
  {
    var more := rows + [n];
    assert more[..|more| - 1] == rows && more[|more| - 1] == n;
    if rows == [] {
      assert Score(k, more) == Plus(Score(k, []), Weight(k, n.position));
    }
  }

  lemma NewsTableStep(table: map<string, Entry>, parser: AgeParser, ms: seq<Keyed<NewsRow>>, m: Keyed<NewsRow>,
                      k: nat, entry: Entry)
    requires IsNewsTable(table, parser, ms, k)
    requires entry == FuseNews(parser, k, Group(ms, m.key) + [m.row],
                               if m.key in table then table[m.key].order else |table|)
    ensures IsNewsTable(table[m.key := entry], parser, ms + [m], k)
  {
    hide FuseNews, Exemplar, Score, Group, FirstSeen, Keys;
    var grown := ms + [m];
    FirstSeenSnoc(ms, m);
    GroupSnoc(ms, m, m.key);
    OtherGroupsStay(table.Keys, ms, m);
    FuseNewsOrder(parser, k, Group(grown, m.key), if m.key in table then table[m.key].order else |table|);
  }

  lemma FuseNewsOrder(parser: AgeParser, k: nat, rows: seq<NewsRow>, order: nat)
    requires rows != []
    ensures FuseNews(parser, k, rows, order).order == order
    ensures FuseNews(parser, k, rows, order).item.url == rows[0].url
  {
  }

  ghost function HitsSoFar(key: KeyOf, outputs: seq<Option<seq<NewsRow>>>, i: nat, j: nat): seq<Keyed<NewsRow>>
    requires i < |outputs| && outputs[i].Some? && j <= |outputs[i].value|
  {
    Hits(key, outputs[..i]) + NewsHits(key, outputs[i].value)[..j]
  }

  lemma NextHit(key: KeyOf, outputs: seq<Option<seq<NewsRow>>>, i: nat, j: nat)
    requires i < |outputs| && outputs[i].Some? && j < |outputs[i].value|
    ensures var n := outputs[i].value[j];
            HitsSoFar(key, outputs, i, j + 1) == HitsSoFar(key, outputs, i, j) + [Keyed(key(n.url), n)]
  {
    var hits := NewsHits(key, outputs[i].value);
    assert hits[..j + 1] == hits[..j] + [hits[j]];
  }

  lemma NextSubQuery(key: KeyOf, outputs: seq<Option<seq<NewsRow>>>, i: nat)
    requires i < |outputs|
    ensures outputs[i].None? ==> Hits(key, outputs[..i + 1]) == Hits(key, outputs[..i])
    ensures outputs[i].Some? ==>
              && HitsSoFar(key, outputs, i, 0) == Hits(key, outputs[..i])
              && HitsSoFar(key, outputs, i, |outputs[i].value|) == Hits(key, outputs[..i + 1])
  {
    assert outputs[..i + 1] == outputs[..i] + [outputs[i]];
    HitsSnoc(key, outputs[..i], outputs[i]);
    if outputs[i].Some? {
      var hits := NewsHits(key, outputs[i].value);
      assert hits[..0] == [] && hits[..|hits|] == hits;
    }
  }

  /** The entries of the table, in any order, are comparable: their order numbers differ. */
  lemma SortedNews(key: KeyOf, parser: AgeParser, outputs: seq<Option<seq<NewsRow>>>, k: nat,
                   table: map<string, Entry>, order: seq<string>, values: seq<Entry>)
    requires IsNewsTable(table, parser, Hits(key, outputs), k)
    requires IsListing(table, order, values)
    ensures StrictlySorted(NewsBefore, SortBy(NewsBefore, values))
    ensures forall x :: x in SortBy(NewsBefore, values) <==> x in FusedEntries(key, parser, outputs, k)
  {
    hide FuseNews;
    var ms := Hits(key, outputs);
    forall i, j | 0 <= i < j < |values| ensures values[i].order != values[j].order {
      assert FirstSeen(ms)[values[i].order] == order[i] && FirstSeen(ms)[values[j].order] == order[j];
    }
    NewsBeforeIsStrictOrder();
    assert Comparable(NewsBefore, values);
    SortBySorts(NewsBefore, values);
    ListingIsFusedEntries(key, parser, outputs, k, table, order, values);
  }

  lemma ListingIsFusedEntries(key: KeyOf, parser: AgeParser, outputs: seq<Option<seq<NewsRow>>>, k: nat,
                              table: map<string, Entry>, order: seq<string>, values: seq<Entry>)
    requires IsNewsTable(table, parser, Hits(key, outputs), k)
    requires IsListing(table, order, values)
    ensures forall x :: x in values <==> x in FusedEntries(key, parser, outputs, k)
  {
    hide FuseNews, Group, FirstSeen, Hits;
    var ms := Hits(key, outputs);
    FirstSeenMembers(ms);
    forall x | x in values ensures x in FusedEntries(key, parser, outputs, k) {
      var i :| 0 <= i < |values| && values[i] == x;
      assert FirstSeen(ms)[x.order] == order[i];
    }
    forall x | x in FusedEntries(key, parser, outputs, k) ensures x in values {
      var i :| 0 <= i < |FirstSeen(ms)| && Group(ms, FirstSeen(ms)[i]) != []
               && x == FuseNews(parser, k, Group(ms, FirstSeen(ms)[i]), i);
      var c := FirstSeen(ms)[i];
      assert c in table && table[c].order == i;
      var p :| 0 <= p < |order| && order[p] == c;
      assert values[p] == x;
    }
  }

  /** The loop body: from the fusion of the rows met so far under a key to the fusion with one row more. */
  method MergeRow(parser: AgeParser, k: nat, ghost rows: seq<NewsRow>, found: Option<Entry>, next: nat, n: NewsRow)
    returns (entry: Entry)
    requires found.None? <==> rows == []
    requires found.Some? ==> found.value == FuseNews(parser, k, rows, found.value.order)
    ensures entry == FuseNews(parser, k, rows + [n], if found.Some? then found.value.order else next)
  {
    hide FuseNews;
    FuseNewsSnoc(parser, k, rows, n, if found.Some? then found.value.order else next);
    var score := Weight(k, n.position);
    var age := AgeOf(parser, n);
    entry := if found.Some? then found.value
             else Entry(NewsItem(0, n.title, n.url, n.source, n.relativeDate, n.thumbnail, Finite(0.0), 0), age, next);
    entry := entry.(item := entry.item.(score := Plus(entry.item.score, score)));
    entry := entry.(item := entry.item.(occurrences := entry.item.occurrences + 1));
    if Newer(age, entry.bestAge) {
      entry := entry.(bestAge := age);
      entry := entry.(item := entry.item.(title := n.title));
      entry := entry.(item := entry.item.(source := n.source));
      entry := entry.(item := entry.item.(relativeDate := n.relativeDate));
      entry := entry.(item := entry.item.(thumbnail := n.thumbnail));
    }
  }

  /** The entries in their strict order. */
  ghost predicate IsRanked(key: KeyOf, parser: AgeParser, outputs: seq<Option<seq<NewsRow>>>, k: nat, entries: seq<Entry>) {
    StrictlySorted(NewsBefore, entries) && forall x :: x in entries <==> x in FusedEntries(key, parser, outputs, k)
  }

  /** The list of results: the ranked entries, renumbered. */
  ghost predicate IsNewsRanking(key: KeyOf, parser: AgeParser, outputs: seq<Option<seq<NewsRow>>>, k: nat, out: seq<NewsItem>) {
    exists entries :: IsRanked(key, parser, outputs, k, entries) && out == Renumbered(entries)
  }

  method RrfAggregateNews(key: KeyOf, parser: AgeParser, outputs: seq<Option<seq<NewsRow>>>, k: nat)
    returns (out: seq<NewsItem>)
    ensures IsNewsRanking(key, parser, outputs, k, out)
  {
    hide FuseNews, Absorb;
    var table: map<string, Entry> := map[];
    var nextOrder := 0;
    for i := 0 to |outputs|
      invariant IsNewsTable(table, parser, Hits(key, outputs[..i]), k) && nextOrder == |table|
    {
      NextSubQuery(key, outputs, i);
      if outputs[i].Some? {
        var news := outputs[i].value;
        for j := 0 to |news|
          invariant IsNewsTable(table, parser, HitsSoFar(key, outputs, i, j), k) && nextOrder == |table|
        {
          var n := news[j];
          var c := key(n.url);
          ghost var ms, m := HitsSoFar(key, outputs, i, j), Keyed(c, n);
          FirstSeenMembers(ms);
          GroupNonEmpty(ms, c);
          var entry := MergeRow(parser, k, Group(ms, c), if c in table then Some(table[c]) else None, nextOrder, n);
          NewsTableStep(table, parser, ms, m, k, entry);
          NextHit(key, outputs, i, j);
          if c !in table {
            nextOrder := nextOrder + 1;
          }
          table := table[c := entry];
        }
      }
    }
    assert outputs[..|outputs|] == outputs;
    var values := IntoValues(table);
    ghost var order :| IsListing(table, order, values);
    SortedNews(key, parser, outputs, k, table, order, values);
    var sorted := SortBy(NewsBefore, values);
    assert IsRanked(key, parser, outputs, k, sorted);
    out := Renumbered(sorted);
  }

  // ----- Over whole runs -----

  /** The news list is the same for every iteration order of the hash map. */
  lemma NewsRankingUnique(key: KeyOf, parser: AgeParser, outputs: seq<Option<seq<NewsRow>>>, k: nat,
                          a: seq<NewsItem>, b: seq<NewsItem>)
    requires IsNewsRanking(key, parser, outputs, k, a) && IsNewsRanking(key, parser, outputs, k, b)
    ensures a == b
  {
    hide FusedEntries, NewsBefore;
    var x :| IsRanked(key, parser, outputs, k, x) && a == Renumbered(x);
    var y :| IsRanked(key, parser, outputs, k, y) && b == Renumbered(y);
    NewsBeforeIsStrictOrder();
    StrictlySortedUnique(NewsBefore, x, y);
  }

  /**
   * Of two results with equal scores, the one listed later is no fresher: a result whose date parses
   * never follows one whose date does not, and equal ages keep first-mention order.
   */
  lemma EqualScoresListFresherFirst(key: KeyOf, parser: AgeParser, outputs: seq<Option<seq<NewsRow>>>, k: nat,
                                    entries: seq<Entry>, i: nat, j: nat)
    requires IsRanked(key, parser, outputs, k, entries)
    requires i < j < |entries| && entries[i].item.score == entries[j].item.score
    ensures NoOlder(entries[i].bestAge, entries[j].bestAge)
    ensures entries[i].bestAge == entries[j].bestAge ==>
              exists p :: 0 <= p < |Hits(key, outputs)| &&
                Hits(key, outputs)[p].key == key(entries[i].item.url) &&
                key(entries[j].item.url) !in Keys(Hits(key, outputs)[..p + 1])
  {
    var ms := Hits(key, outputs);
    var a, b := entries[i], entries[j];
    assert NewsBefore(a, b);
    NewsEntryFields(key, parser, outputs, k, a);
    NewsEntryFields(key, parser, outputs, k, b);
    if a.bestAge == b.bestAge {
      if a.order == b.order {
        StrLessIrreflexive(a.item.url);
        assert false;
      }
      var p := FirstSeenOrder(ms, a.order, b.order);
    }
  }

  /** The fields of an entry, as the source promises them. */
  lemma NewsEntryFields(key: KeyOf, parser: AgeParser, outputs: seq<Option<seq<NewsRow>>>, k: nat, x: Entry)
    requires x in FusedEntries(key, parser, outputs, k)
    ensures x.order < |FirstSeen(Hits(key, outputs))|
    ensures var c := FirstSeen(Hits(key, outputs))[x.order];
            var rows := Group(Hits(key, outputs), c);
            && rows != [] && key(x.item.url) == c && x.item.url == rows[0].url
            && x.item.score == Score(k, rows) && x.item.occurrences == |rows|
            && exists e: nat :: IsFreshest(parser, rows, e) && x.item.title == rows[e].title
                 && x.item.source == rows[e].source && x.item.relativeDate == rows[e].relativeDate
                 && x.item.thumbnail == rows[e].thumbnail && x.bestAge == AgeOf(parser, rows[e])
  {
    var ms := Hits(key, outputs);
    var i :| 0 <= i < |FirstSeen(ms)| && Group(ms, FirstSeen(ms)[i]) != [] && x == FuseNews(parser, k, Group(ms, FirstSeen(ms)[i]), i);
    var rows := Group(ms, FirstSeen(ms)[i]);
    ExemplarIsFreshest(parser, rows);
    assert rows[0] in rows;
    GroupMember(ms, FirstSeen(ms)[i], rows[0]);
    HitsAreFiledByUrl(key, outputs);
  }

  lemma {:induction false} HitsAreFiledByUrl(key: KeyOf, outputs: seq<Option<seq<NewsRow>>>)
    ensures forall m :: m in Hits(key, outputs) ==> m.key == key(m.row.url)
  {
    if outputs != [] {
      HitsAreFiledByUrl(key, outputs[1..]);
    }
  }
}
