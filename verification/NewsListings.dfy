/** The two news lists, said row by row: which rows they show, with what fields, in what order. */
module NewsListings {
  import opened Common
  import opened Ordering
  import opened Fusion
  import opened NewsFusion
  import NewsDedupe

  /** All news rows, sub-query by sub-query. */
  function Traversed(outputs: seq<Option<seq<NewsRow>>>): seq<NewsRow> {
    if outputs == [] then []
    else (match outputs[0] case None => [] case Some(news) => news) + Traversed(outputs[1..])
  }

  lemma {:induction false} HitsAreTraversed(key: KeyOf, outputs: seq<Option<seq<NewsRow>>>)
    ensures |Hits(key, outputs)| == |Traversed(outputs)|
    ensures forall p :: 0 <= p < |Traversed(outputs)| ==>
              Hits(key, outputs)[p] == Keyed(key(Traversed(outputs)[p].url), Traversed(outputs)[p])
  {
    if outputs != [] {
      HitsAreTraversed(key, outputs[1..]);
    }
  }

  /** Row `p` is the first one whose URL has this key. */
  ghost predicate IsFirstRow(key: KeyOf, rows: seq<NewsRow>, c: string, p: nat) {
    p < |rows| && key(rows[p].url) == c && forall q :: 0 <= q < p ==> key(rows[q].url) != c
  }

  lemma FirstRowOfKey(key: KeyOf, outputs: seq<Option<seq<NewsRow>>>, c: string) returns (p: nat)
    requires Group(Hits(key, outputs), c) != []
    ensures IsFirstMention(Hits(key, outputs), c, p) && IsFirstRow(key, Traversed(outputs), c, p)
    ensures Group(Hits(key, outputs), c)[0] == Traversed(outputs)[p]
  {
    HitsAreTraversed(key, outputs);
    p := GroupHead(Hits(key, outputs), c);
  }

  // ----- First-seen deduplication -----

  /** The item shows the row as it was found, at place `n` of the list. */
  predicate ShowsRow(x: NewsItem, r: NewsRow, n: nat) {
    && x.url == r.url && x.title == r.title && x.source == r.source && x.relativeDate == r.relativeDate
    && x.thumbnail == r.thumbnail && x.score == Finite(1.0) && x.occurrences == 1 && x.position == n + 1
  }

  /** `at[n]` is the row shown at place `n`, the first one of its key. */
  ghost predicate ShowsFirstRows(key: KeyOf, rows: seq<NewsRow>, out: seq<NewsItem>, at: seq<nat>) {
    && |at| == |out|
    && (forall n :: 0 <= n < |out| ==> IsFirstRow(key, rows, key(out[n].url), at[n]) && ShowsRow(out[n], rows[at[n]], n))
  }

  ghost predicate IsShown(key: KeyOf, out: seq<NewsItem>, c: string) {
    exists n :: 0 <= n < |out| && key(out[n].url) == c
  }

  ghost predicate ShowsEveryKey(key: KeyOf, rows: seq<NewsRow>, out: seq<NewsItem>) {
    forall p :: 0 <= p < |rows| ==> IsShown(key, out, key(rows[p].url))
  }

  /** Rows stand by page position, equal positions by first mention. */
  ghost predicate StandByPosition(rows: seq<NewsRow>, at: seq<nat>) {
    forall n, m :: 0 <= n < m < |at| ==> at[n] < |rows| && at[m] < |rows| && ComesFirst(rows, at[n], at[m])
  }

  predicate ComesFirst(rows: seq<NewsRow>, p: nat, q: nat)
    requires p < |rows| && q < |rows|
  {
    rows[p].position < rows[q].position || (rows[p].position == rows[q].position && p < q)
  }

  /** The entry of the kept table that shows a key, and the row it shows. */
  lemma KeptRow(key: KeyOf, outputs: seq<Option<seq<NewsRow>>>, x: NewsDedupe.First) returns (p: nat)
    requires x in NewsDedupe.KeptEntries(key, outputs)
    ensures x.order < |FirstSeen(Hits(key, outputs))|
    ensures FirstSeen(Hits(key, outputs))[x.order] == key(x.item.url)
    ensures IsFirstMention(Hits(key, outputs), key(x.item.url), p)
    ensures IsFirstRow(key, Traversed(outputs), key(x.item.url), p)
    ensures ShowsRow(x.item.(position := 1), Traversed(outputs)[p], 0) && x.position == Traversed(outputs)[p].position
  {
    hide Hits, Group, FirstSeen, Traversed;
    var ms := Hits(key, outputs);
    var i :| 0 <= i < |FirstSeen(ms)| && Group(ms, FirstSeen(ms)[i]) != []
             && x == NewsDedupe.Kept(Group(ms, FirstSeen(ms)[i])[0], i);
    p := FirstRowOfKey(key, outputs, FirstSeen(ms)[i]);
  }

  lemma KeptOrder(key: KeyOf, outputs: seq<Option<seq<NewsRow>>>, entries: seq<NewsDedupe.First>, n: nat, m: nat, p: nat, q: nat)
    requires NewsDedupe.IsOrdered(key, outputs, entries) && n < m < |entries|
    requires IsFirstMention(Hits(key, outputs), key(entries[n].item.url), p)
    requires IsFirstMention(Hits(key, outputs), key(entries[m].item.url), q)
    requires p < |Traversed(outputs)| && q < |Traversed(outputs)|
    requires entries[n].position == Traversed(outputs)[p].position && entries[m].position == Traversed(outputs)[q].position
    ensures ComesFirst(Traversed(outputs), p, q)
  {
    hide Hits, Group, FirstSeen, Traversed;
    var a, b := entries[n], entries[m];
    assert NewsDedupe.FirstBefore(a, b);
    var p' := KeptRow(key, outputs, a);
    var q' := KeptRow(key, outputs, b);
    if a.position == b.position {
      if a.order == b.order {
        StrLessIrreflexive(a.item.url);
      } else {
        FirstMentionOrder(Hits(key, outputs), a.order, b.order, p, q);
      }
    }
  }

  /** Every key has its entry. */
  lemma KeyIsKept(key: KeyOf, outputs: seq<Option<seq<NewsRow>>>, p: nat)
    requires p < |Traversed(outputs)|
    ensures exists x :: x in NewsDedupe.KeptEntries(key, outputs) && key(x.item.url) == key(Traversed(outputs)[p].url)
  {
    var i := KeyIsListed(key, outputs, p);
    hide Hits, Group, FirstSeen, Traversed;
    var ms := Hits(key, outputs);
    var x := NewsDedupe.Kept(Group(ms, FirstSeen(ms)[i])[0], i);
    assert x in NewsDedupe.KeptEntries(key, outputs);
    var q := KeptRow(key, outputs, x);
    assert x.order == i;
  }

  lemma KeyIsListed(key: KeyOf, outputs: seq<Option<seq<NewsRow>>>, p: nat) returns (i: nat)
    requires p < |Traversed(outputs)|
    ensures i < |FirstSeen(Hits(key, outputs))| && FirstSeen(Hits(key, outputs))[i] == key(Traversed(outputs)[p].url)
    ensures Group(Hits(key, outputs), key(Traversed(outputs)[p].url)) != []
  {
    HitsAreTraversed(key, outputs);
    hide Hits, Group, FirstSeen, Traversed;
    var ms, c := Hits(key, outputs), key(Traversed(outputs)[p].url);
    assert ms[p] in ms;
    FirstSeenMembers(ms);
    GroupNonEmpty(ms, c);
    assert c in FirstSeen(ms);
    i :| 0 <= i < |FirstSeen(ms)| && FirstSeen(ms)[i] == c;
  }

  lemma KeptKeysAreShown(key: KeyOf, outputs: seq<Option<seq<NewsRow>>>, out: seq<NewsItem>, entries: seq<NewsDedupe.First>)
    requires NewsDedupe.IsOrdered(key, outputs, entries) && out == NewsDedupe.Renumbered(entries)
    ensures ShowsEveryKey(key, Traversed(outputs), out)
  {
    hide Hits, Group, FirstSeen, Traversed, NewsDedupe.KeptEntries, NewsDedupe.FirstBefore;
    var rows := Traversed(outputs);
    forall p | 0 <= p < |rows| ensures IsShown(key, out, key(rows[p].url)) {
      KeyIsKept(key, outputs, p);
      var x :| x in NewsDedupe.KeptEntries(key, outputs) && key(x.item.url) == key(rows[p].url);
      assert x in entries;
      var n :| 0 <= n < |entries| && entries[n] == x;
      assert out[n].url == x.item.url && key(out[n].url) == key(rows[p].url);
    }
  }

  /**
   * The deduplicated list shows the first row of every key and nothing else, by page position and, for
   * equal positions, in the order in which the rows were met, numbered from 1.
   */
  lemma DedupedNewsRows(key: KeyOf, outputs: seq<Option<seq<NewsRow>>>, out: seq<NewsItem>) returns (at: seq<nat>)
    requires NewsDedupe.IsDedupedNews(key, outputs, out)
    ensures var rows := Traversed(outputs);
            ShowsFirstRows(key, rows, out, at) && ShowsEveryKey(key, rows, out) && StandByPosition(rows, at)
  {
    var entries: seq<NewsDedupe.First> :| NewsDedupe.IsOrdered(key, outputs, entries) && out == NewsDedupe.Renumbered(entries);
    KeptKeysAreShown(key, outputs, out, entries);
    at := KeptRows(key, outputs, entries, |entries|);
    hide Hits, Group, FirstSeen, Traversed, IsFirstRow, ShowsRow, ComesFirst, ShowsEveryKey, NewsDedupe.IsOrdered, IsFirstMention;
    forall n | 0 <= n < |out|
      ensures IsFirstRow(key, Traversed(outputs), key(out[n].url), at[n]) && at[n] < |Traversed(outputs)|
           && ShowsRow(out[n], Traversed(outputs)[at[n]], n)
    {
      assert out[n] == entries[n].item.(position := n + 1);
    }
    forall n, m | 0 <= n < m < |at| ensures ComesFirst(Traversed(outputs), at[n], at[m]) {
      KeptOrder(key, outputs, entries, n, m, at[n], at[m]);
    }
  }

  lemma {:induction false} KeptRows(key: KeyOf, outputs: seq<Option<seq<NewsRow>>>, entries: seq<NewsDedupe.First>, k: nat)
    returns (at: seq<nat>)
    requires NewsDedupe.IsOrdered(key, outputs, entries) && k <= |entries|
    ensures |at| == k
    ensures forall n :: 0 <= n < k ==>
      && IsFirstMention(Hits(key, outputs), key(entries[n].item.url), at[n])
      && at[n] < |Traversed(outputs)| && IsFirstRow(key, Traversed(outputs), key(entries[n].item.url), at[n])
      && ShowsRow(entries[n].item.(position := n + 1), Traversed(outputs)[at[n]], n)
      && entries[n].position == Traversed(outputs)[at[n]].position
  {
    hide Hits, Group, FirstSeen, Traversed;
    if k == 0 {
      at := [];
    } else {
      at := KeptRows(key, outputs, entries, k - 1);
      var p := KeptRow(key, outputs, entries[k - 1]);
      at := at + [p];
    }
  }

  // ----- Reciprocal rank fusion -----

  /** The age of the date an item shows. */
  function ShownAge(parser: AgeParser, x: NewsItem): Option<nat> {
    match x.relativeDate case None => None case Some(date) => parser(date)
  }

  predicate NoLess(a: NewsScore, b: NewsScore) {
    match a
    case Infinite => true
    case Finite(x) => match b { case Infinite => false case Finite(y) => x >= y }
  }

  /** Scores never rise; equal scores stand by age, equal ages by the rows first met. */
  predicate RanksBefore(parser: AgeParser, a: NewsItem, b: NewsItem, p: nat, q: nat) {
    && NoLess(a.score, b.score)
    && (a.score == b.score ==>
          && NoOlder(ShownAge(parser, a), ShownAge(parser, b))
          && (ShownAge(parser, a) == ShownAge(parser, b) ==> p < q))
  }

  /** The item sums up the rows of one key: the first one's URL, the freshest one's fields, their number and score. */
  ghost predicate SumsUp(parser: AgeParser, k: nat, x: NewsItem, rows: seq<NewsRow>) {
    && rows != [] && x.url == rows[0].url && x.occurrences == |rows| && x.score == Score(k, rows)
    && exists e: nat :: IsFreshest(parser, rows, e) && x.title == rows[e].title && x.source == rows[e].source
         && x.relativeDate == rows[e].relativeDate && x.thumbnail == rows[e].thumbnail
  }

  /** `at[n]` is where the key of place `n` was first met. */
  ghost predicate ShowsSums(key: KeyOf, parser: AgeParser, outputs: seq<Option<seq<NewsRow>>>, k: nat,
                            out: seq<NewsItem>, at: seq<nat>) {
    && |at| == |out|
    && (forall n :: 0 <= n < |out| ==>
          && out[n].position == n + 1 && IsFirstRow(key, Traversed(outputs), key(out[n].url), at[n])
          && SumsUp(parser, k, out[n], Group(Hits(key, outputs), key(out[n].url))))
  }

  ghost predicate StandByRank(parser: AgeParser, out: seq<NewsItem>, at: seq<nat>)
    requires |at| == |out|
  {
    forall n, m :: 0 <= n < m < |out| ==> RanksBefore(parser, out[n], out[m], at[n], at[m])
  }

  /** The entry of a key: where it was first mentioned, and what it sums up. */
  lemma FusedRow(key: KeyOf, parser: AgeParser, outputs: seq<Option<seq<NewsRow>>>, k: nat, x: Entry) returns (p: nat)
    requires x in FusedEntries(key, parser, outputs, k)
    ensures x.order < |FirstSeen(Hits(key, outputs))|
    ensures FirstSeen(Hits(key, outputs))[x.order] == key(x.item.url)
    ensures IsFirstMention(Hits(key, outputs), key(x.item.url), p)
    ensures IsFirstRow(key, Traversed(outputs), key(x.item.url), p)
    ensures SumsUp(parser, k, x.item, Group(Hits(key, outputs), key(x.item.url)))
    ensures x.bestAge == ShownAge(parser, x.item)
  {
    hide Hits, Group, FirstSeen, Traversed, Score, IsFreshest;
    NewsEntryFields(key, parser, outputs, k, x);
    p := FirstRowOfKey(key, outputs, key(x.item.url));
  }

  lemma RankedOrder(key: KeyOf, parser: AgeParser, outputs: seq<Option<seq<NewsRow>>>, k: nat, entries: seq<Entry>,
                    n: nat, m: nat, p: nat, q: nat)
    requires IsRanked(key, parser, outputs, k, entries) && n < m < |entries|
    requires IsFirstMention(Hits(key, outputs), key(entries[n].item.url), p)
    requires IsFirstMention(Hits(key, outputs), key(entries[m].item.url), q)
    ensures RanksBefore(parser, entries[n].item, entries[m].item, p, q)
  {
    var a, b := entries[n], entries[m];
    assert NewsBefore(a, b);
    hide Hits, Group, FirstSeen, Traversed, FusedEntries, SumsUp;
    var p' := FusedRow(key, parser, outputs, k, a);
    var q' := FusedRow(key, parser, outputs, k, b);
    if a.item.score == b.item.score && a.bestAge == b.bestAge {
      if a.order == b.order {
        StrLessIrreflexive(a.item.url);
      } else {
        FirstMentionOrder(Hits(key, outputs), a.order, b.order, p, q);
      }
    }
  }

  lemma {:induction false} FusedRows(key: KeyOf, parser: AgeParser, outputs: seq<Option<seq<NewsRow>>>, k: nat,
                                     entries: seq<Entry>, count: nat) returns (at: seq<nat>)
    requires IsRanked(key, parser, outputs, k, entries) && count <= |entries|
    ensures |at| == count
    ensures forall n :: 0 <= n < count ==>
      && IsFirstMention(Hits(key, outputs), key(entries[n].item.url), at[n])
      && IsFirstRow(key, Traversed(outputs), key(entries[n].item.url), at[n])
      && SumsUp(parser, k, entries[n].item, Group(Hits(key, outputs), key(entries[n].item.url)))
  {
    hide Hits, Group, FirstSeen, Traversed, SumsUp;
    if count == 0 {
      at := [];
    } else {
      at := FusedRows(key, parser, outputs, k, entries, count - 1);
      var p := FusedRow(key, parser, outputs, k, entries[count - 1]);
      at := at + [p];
    }
  }

  lemma KeyIsFused(key: KeyOf, parser: AgeParser, outputs: seq<Option<seq<NewsRow>>>, k: nat, p: nat)
    requires p < |Traversed(outputs)|
    ensures exists x :: x in FusedEntries(key, parser, outputs, k) && key(x.item.url) == key(Traversed(outputs)[p].url)
  {
    var i := KeyIsListed(key, outputs, p);
    hide Hits, Group, FirstSeen, Traversed, SumsUp, Score;
    var ms := Hits(key, outputs);
    var x := FuseNews(parser, k, Group(ms, FirstSeen(ms)[i]), i);
    assert x in FusedEntries(key, parser, outputs, k);
    var q := FusedRow(key, parser, outputs, k, x);
    assert x.order == i;
  }

  /** Renumbering changes nothing that the ranking or the summary looks at. */
  lemma RenumberedKeeps(parser: AgeParser, k: nat, x: NewsItem, y: NewsItem, rows: seq<NewsRow>)
    requires y == x.(position := y.position)
    ensures SumsUp(parser, k, x, rows) ==> SumsUp(parser, k, y, rows)
    ensures ShownAge(parser, x) == ShownAge(parser, y)
  {
    hide IsFreshest, Score;
  }

  lemma FusedKeysAreShown(key: KeyOf, parser: AgeParser, outputs: seq<Option<seq<NewsRow>>>, k: nat, out: seq<NewsItem>,
                          entries: seq<Entry>)
    requires IsRanked(key, parser, outputs, k, entries) && out == Renumbered(entries)
    ensures ShowsEveryKey(key, Traversed(outputs), out)
  {
    hide Hits, Group, FirstSeen, Traversed, FusedEntries, NewsBefore;
    var rows := Traversed(outputs);
    forall p | 0 <= p < |rows| ensures IsShown(key, out, key(rows[p].url)) {
      KeyIsFused(key, parser, outputs, k, p);
      var x :| x in FusedEntries(key, parser, outputs, k) && key(x.item.url) == key(rows[p].url);
      assert x in entries;
      var n :| 0 <= n < |entries| && entries[n] == x;
      assert out[n].url == x.item.url && key(out[n].url) == key(rows[p].url);
    }
  }

  /**
   * The fused news list shows every key once, numbered from 1; scores never rise, equal scores are
   * listed fresher first, and equal ages in the order in which the keys were first met.
   */
  lemma RankedNewsRows(key: KeyOf, parser: AgeParser, outputs: seq<Option<seq<NewsRow>>>, k: nat, out: seq<NewsItem>)
    returns (at: seq<nat>)
    requires IsNewsRanking(key, parser, outputs, k, out)
    ensures ShowsSums(key, parser, outputs, k, out, at) && ShowsEveryKey(key, Traversed(outputs), out)
    ensures StandByRank(parser, out, at)
  {
    var entries: seq<Entry> :| IsRanked(key, parser, outputs, k, entries) && out == Renumbered(entries);
    FusedKeysAreShown(key, parser, outputs, k, out, entries);
    at := FusedRows(key, parser, outputs, k, entries, |entries|);
    hide Hits, Group, FirstSeen, Traversed, IsRanked, SumsUp, IsFirstRow, IsFirstMention, ShownAge, ShowsEveryKey, NoLess, NoOlder;
    forall n | 0 <= n < |out| ensures SumsUp(parser, k, out[n], Group(Hits(key, outputs), key(out[n].url))) {
      RenumberedKeeps(parser, k, entries[n].item, out[n], Group(Hits(key, outputs), key(out[n].url)));
    }
    forall n, m | 0 <= n < m < |out| ensures RanksBefore(parser, out[n], out[m], at[n], at[m]) {
      RankedOrder(key, parser, outputs, k, entries, n, m, at[n], at[m]);
      RenumberedKeeps(parser, k, entries[n].item, out[n], []);
      RenumberedKeeps(parser, k, entries[m].item, out[m], []);
    }
  }

  // ----- The score of a group -----

  /** One row weighs 1/(k + position), without bound where that is 1/0; scores of groups add up. */
  lemma {:induction false} ScoreAddsUp(k: nat, a: seq<NewsRow>, b: seq<NewsRow>)
    ensures Score(k, a + b).Infinite? <==> Score(k, a).Infinite? || Score(k, b).Infinite?
    ensures Score(k, a + b).Finite? ==> Score(k, a + b).value == Score(k, a).value + Score(k, b).value
  {
    if b == [] {
      assert a + b == a;
    } else {
      var front, last := b[..|b| - 1], b[|b| - 1];
      assert (a + b)[..|a + b| - 1] == a + front && (a + b)[|a + b| - 1] == last;
      ScoreAddsUp(k, a, front);
    }
  }

  lemma ScoreOfOne(k: nat, n: NewsRow)
    ensures Score(k, [n]).Infinite? <==> k == 0 && n.position == 0
    ensures Score(k, [n]).Finite? ==> Score(k, [n]).value * (k + n.position) as real == 1.0
  {
    assert [n][..0] == [];
    assert Score(k, [n]) == Plus(Score(k, []), Weight(k, n.position));
  }
}
