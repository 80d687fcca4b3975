/** Reciprocal rank fusion and first-seen deduplication of the web results. */
module WebFusion {
  import opened Common
  import opened Ordering
  import opened Fusion

  datatype Row = Row(url: string, title: string, displayUrl: Option<string>, snippet: Option<string>)

  datatype SubQuery = SubQuery(query: string, results: seq<Row>)

  /** An aggregated result; it also serves as the hash-map entry while rows are folded in. */
  datatype Item = Item(url: string, title: string, displayUrl: Option<string>, snippet: Option<string>,
                       score: real, position: nat, sources: seq<string>)

  type Rank = n: nat | 1 <= n witness 1

  /** One row as the loops meet it: its 1-based rank and the sub-query it came from. */
  datatype Hit = Hit(rank: Rank, query: string, row: Row)

  /** The key function is arbitrary: a hash of the canonical form of the URL. */
  type KeyOf = string -> string

  function RowHit(key: KeyOf, q: SubQuery, i: nat): Keyed<Hit>
    requires i < |q.results|
  {
    Keyed(key(q.results[i].url), Hit(i + 1, q.query, q.results[i]))
  }

  function RowHits(key: KeyOf, q: SubQuery): seq<Keyed<Hit>> {
    seq(|q.results|, i requires 0 <= i < |q.results| => RowHit(key, q, i))
  }

  /** Every row of every sub-query, in traversal order. */
  function Hits(key: KeyOf, outputs: seq<SubQuery>): seq<Keyed<Hit>> {
    if outputs == [] then [] else RowHits(key, outputs[0]) + Hits(key, outputs[1..])
  }

  // ----- What fusion promises for one key -----

  function Weight(k: nat, h: Hit): real {
    1.0 / (k + h.rank) as real
  }

  function Score(k: nat, hits: seq<Hit>): real {
    if hits == [] then 0.0 else Weight(k, hits[0]) + Score(k, hits[1..])
  }

  function BestRank(hits: seq<Hit>): nat
    requires hits != []
  {
    if |hits| == 1 then hits[0].rank else Min(hits[0].rank, BestRank(hits[1..]))
  }

  predicate HasTitle(h: Hit) { h.row.title != "" }

  predicate HasDisplayUrl(h: Hit) { h.row.displayUrl.Some? }

  predicate HasSnippet(h: Hit) { h.row.snippet.Some? }

  function Title(hits: seq<Hit>): string {
    match FirstWhere(hits, HasTitle) case Some(h) => h.row.title case None => ""
  }

  function DisplayUrl(hits: seq<Hit>): Option<string> {
    match FirstWhere(hits, HasDisplayUrl) case Some(h) => h.row.displayUrl case None => None
  }

  function Snippet(hits: seq<Hit>): Option<string> {
    match FirstWhere(hits, HasSnippet) case Some(h) => h.row.snippet case None => None
  }

  function Queries(hits: seq<Hit>): seq<string> {
    seq(|hits|, i requires 0 <= i < |hits| => hits[i].query)
  }

  /** The fused result of all rows that share a key. */
  function Fuse(k: nat, hits: seq<Hit>): Item
    requires hits != []
  {
    Item(hits[0].row.url, Title(hits), DisplayUrl(hits), Snippet(hits),
         Score(k, hits), BestRank(hits), Distinct(Queries(hits)))
  }

  /** The result that first-seen deduplication keeps for a key. */
  function KeepFirst(hits: seq<Hit>): Item
    requires hits != []
  {
    var h := hits[0];
    Item(h.row.url, h.row.title, h.row.displayUrl, h.row.snippet, 1.0, h.rank,
         if h.query == "" then [] else [h.query])
  }

  ghost function FusedItems(key: KeyOf, outputs: seq<SubQuery>, k: nat): set<Item> {
    var ms := Hits(key, outputs);
    set c | c in Keys(ms) && Group(ms, c) != [] :: Fuse(k, Group(ms, c))
  }

  ghost function KeptItems(key: KeyOf, outputs: seq<SubQuery>): set<Item> {
    var ms := Hits(key, outputs);
    set c | c in Keys(ms) && Group(ms, c) != [] :: KeepFirst(Group(ms, c))
  }

  // ----- The comparators -----

  /** Score descending, position ascending, URL ascending. */
  predicate RankBefore(a: Item, b: Item) {
    a.score > b.score
    || (a.score == b.score
        && (a.position < b.position || (a.position == b.position && StrLess(a.url, b.url))))
  }

  /** Position ascending, URL ascending. */
  predicate PositionBefore(a: Item, b: Item) {
    a.position < b.position || (a.position == b.position && StrLess(a.url, b.url))
  }

  lemma ComparatorsAreStrictOrders()
    ensures StrictOrder(RankBefore) && StrictOrder(PositionBefore)
  {
    forall a: Item ensures !StrLess(a.url, a.url) {
      StrLessIrreflexive(a.url);
    }
    forall a: Item, b: Item, c: Item | StrLess(a.url, b.url) && StrLess(b.url, c.url)
      ensures StrLess(a.url, c.url)
    {
      StrLessTransitive(a.url, b.url, c.url);
    }
  }

  lemma DistinctUrlsAreComparable(items: seq<Item>)
    requires forall i, j :: 0 <= i < j < |items| ==> items[i].url != items[j].url
    ensures Comparable(RankBefore, items) && Comparable(PositionBefore, items)
  {
    forall i, j | 0 <= i < j < |items|
      ensures StrLess(items[i].url, items[j].url) || StrLess(items[j].url, items[i].url)
    {
      StrLessTotal(items[i].url, items[j].url);
    }
  }

  // ----- Facts about the traversal -----

  lemma {:induction false} HitsSnoc(key: KeyOf, outputs: seq<SubQuery>, q: SubQuery)
    ensures Hits(key, outputs + [q]) == Hits(key, outputs) + RowHits(key, q)
  {
    if outputs == [] {
      assert ([q])[1..] == [];
      assert outputs + [q] == [q];
      assert Hits(key, [q]) == RowHits(key, q) + Hits(key, []);
    } else {
      assert (outputs + [q])[1..] == outputs[1..] + [q];
      HitsSnoc(key, outputs[1..], q);
    }
  }

  /** Every row is filed under the key of its own URL, so different keys mean different URLs. */
  lemma {:induction false} HitsAreFiledByUrl(key: KeyOf, outputs: seq<SubQuery>)
    ensures forall m :: m in Hits(key, outputs) ==> m.key == key(m.row.row.url)
  {
    if outputs != [] {
      HitsAreFiledByUrl(key, outputs[1..]);
    }
  }

  lemma GroupIsFiledByUrl(key: KeyOf, outputs: seq<SubQuery>, c: string)
    ensures forall h :: h in Group(Hits(key, outputs), c) ==> key(h.row.url) == c
  {
    HitsAreFiledByUrl(key, outputs);
    forall h | h in Group(Hits(key, outputs), c) ensures key(h.row.url) == c {
      GroupMember(Hits(key, outputs), c, h);
    }
  }

  // ----- One more row under a key: the loop body against the specification -----

  lemma {:induction false} ScoreSnoc(k: nat, hits: seq<Hit>, h: Hit)
    ensures Score(k, hits + [h]) == Score(k, hits) + Weight(k, h)
  {
    if hits == [] {
      assert hits + [h] == [h] && [h][1..] == [];
      assert Score(k, [h]) == Weight(k, h) + Score(k, []);
    } else {
      assert (hits + [h])[1..] == hits[1..] + [h];
      ScoreSnoc(k, hits[1..], h);
    }
  }

  lemma {:induction false} BestRankSnoc(hits: seq<Hit>, h: Hit)
    ensures BestRank(hits + [h]) == if hits == [] || h.rank < BestRank(hits) then h.rank else BestRank(hits)
  {
    if hits == [] {
      assert hits + [h] == [h];
    } else {
      assert (hits + [h])[1..] == hits[1..] + [h];
      BestRankSnoc(hits[1..], h);
    }
  }

  lemma QueriesSnoc(hits: seq<Hit>, h: Hit)
    ensures Distinct(Queries(hits + [h]))
         == var d := Distinct(Queries(hits)); if h.query == "" || h.query in d then d else d + [h.query]
  {
    var qs := Queries(hits + [h]);
    assert qs[..|hits|] == Queries(hits);
    assert qs[|hits|] == h.query;
  }

  /** How one row changes the entry of its key (`None` when the key is new). */
  function Absorb(k: nat, entry: Option<Item>, h: Hit): Item {
    var e := if entry.Some? then entry.value
             else Item(h.row.url, "", h.row.displayUrl, h.row.snippet, 0.0, h.rank, []);
    Item(e.url,
         if e.title == "" then h.row.title else e.title,
         if e.displayUrl.None? then h.row.displayUrl else e.displayUrl,
         if e.snippet.None? then h.row.snippet else e.snippet,
         e.score + Weight(k, h),
         if h.rank < e.position then h.rank else e.position,
         if h.query == "" || h.query in e.sources then e.sources else e.sources + [h.query])
  }

  lemma FirstFieldsSnoc(hits: seq<Hit>, h: Hit)
    ensures Title(hits + [h]) == if Title(hits) == "" then h.row.title else Title(hits)
    ensures DisplayUrl(hits + [h]) == if DisplayUrl(hits).None? then h.row.displayUrl else DisplayUrl(hits)
    ensures Snippet(hits + [h]) == if Snippet(hits).None? then h.row.snippet else Snippet(hits)
  {
    FirstWhereSnoc(hits, h, HasTitle);
    FirstWhereSnoc(hits, h, HasDisplayUrl);
    FirstWhereSnoc(hits, h, HasSnippet);
    var i := FirstWhereIndex(hits, HasTitle);
    var j := FirstWhereIndex(hits, HasDisplayUrl);
    var l := FirstWhereIndex(hits, HasSnippet);
  }

  lemma FuseSnoc(k: nat, hits: seq<Hit>, h: Hit)
    ensures Fuse(k, hits + [h]) == Absorb(k, if hits == [] then None else Some(Fuse(k, hits)), h)
  {
    ScoreSnoc(k, hits, h);
    BestRankSnoc(hits, h);
    QueriesSnoc(hits, h);
    FirstFieldsSnoc(hits, h);
    if hits == [] {
      assert Distinct(Queries(hits)) == [];
    }
  }

  // ----- The two aggregations -----

  /** The rows met once the first `i` sub-queries and `j` rows of the next one have been folded in. */
  ghost function HitsSoFar(key: KeyOf, outputs: seq<SubQuery>, i: nat, j: nat): seq<Keyed<Hit>>
    requires i < |outputs| && j <= |outputs[i].results|
  {
    Hits(key, outputs[..i]) + RowHits(key, outputs[i])[..j]
  }

  lemma NextHit(key: KeyOf, outputs: seq<SubQuery>, i: nat, j: nat)
    requires i < |outputs| && j < |outputs[i].results|
    ensures HitsSoFar(key, outputs, i, j + 1) == HitsSoFar(key, outputs, i, j) + [RowHit(key, outputs[i], j)]
  {
    assert RowHits(key, outputs[i])[..j + 1] == RowHits(key, outputs[i])[..j] + [RowHit(key, outputs[i], j)];
  }

  lemma NextSubQuery(key: KeyOf, outputs: seq<SubQuery>, i: nat)
    requires i < |outputs|
    ensures HitsSoFar(key, outputs, i, 0) == Hits(key, outputs[..i])
    ensures HitsSoFar(key, outputs, i, |outputs[i].results|) == Hits(key, outputs[..i + 1])
  {
    var hits := RowHits(key, outputs[i]);
    assert hits[..0] == [] && hits[..|hits|] == hits;
    assert outputs[..i + 1] == outputs[..i] + [outputs[i]];
    HitsSnoc(key, outputs[..i], outputs[i]);
  }

  /** The hash map holds, for each key met so far, the fusion of that key's rows. */
  ghost predicate IsFusedTable(table: map<string, Item>, ms: seq<Keyed<Hit>>, k: nat) {
    && table.Keys == Keys(ms)
    && forall c :: c in table ==> Group(ms, c) != [] && table[c] == Fuse(k, Group(ms, c))
  }

  ghost predicate IsKeptTable(table: map<string, Item>, ms: seq<Keyed<Hit>>) {
    && table.Keys == Keys(ms)
    && forall c :: c in table ==> Group(ms, c) != [] && table[c] == KeepFirst(Group(ms, c))
  }

  lemma FusedTableStep(table: map<string, Item>, ms: seq<Keyed<Hit>>, m: Keyed<Hit>, k: nat, entry: Item)
    requires IsFusedTable(table, ms, k)
    requires entry == Fuse(k, Group(ms, m.key) + [m.row])
    ensures IsFusedTable(table[m.key := entry], ms + [m], k)
  {
    hide Fuse, Group, Keys;
    GroupSnoc(ms, m, m.key);
    OtherGroupsStay(table.Keys, ms, m);
  }

  lemma KeptTableStep(table: map<string, Item>, ms: seq<Keyed<Hit>>, m: Keyed<Hit>)
    requires IsKeptTable(table, ms)
    ensures var entry := if m.key in table then table[m.key] else KeepFirst([m.row]);
            IsKeptTable(table[m.key := entry], ms + [m])
  {
    GroupNonEmpty(ms, m.key);
    hide Group, Keys;
    GroupSnoc(ms, m, m.key);
    OtherGroupsStay(table.Keys, ms, m);
  }

  /** Listing the table in any order yields each summarised group once, with pairwise different URLs. */
  lemma ListingHasDistinctUrls(key: KeyOf, outputs: seq<SubQuery>, order: seq<string>, values: seq<Item>)
    requires |values| == |order|
    requires forall i, j :: 0 <= i < j < |order| ==> order[i] != order[j]
    requires forall i :: 0 <= i < |order| ==>
               Group(Hits(key, outputs), order[i]) != [] &&
               values[i].url == Group(Hits(key, outputs), order[i])[0].row.url
    ensures forall i, j :: 0 <= i < j < |values| ==> values[i].url != values[j].url
  {
    forall i | 0 <= i < |order| ensures key(values[i].url) == order[i] {
      GroupIsFiledByUrl(key, outputs, order[i]);
      assert Group(Hits(key, outputs), order[i])[0] in Group(Hits(key, outputs), order[i]);
    }
  }

  lemma SortedFusion(key: KeyOf, outputs: seq<SubQuery>, k: nat, table: map<string, Item>,
                     order: seq<string>, values: seq<Item>)
    requires IsFusedTable(table, Hits(key, outputs), k)
    requires IsListing(table, order, values)
    ensures StrictlySorted(RankBefore, SortBy(RankBefore, values))
    ensures forall x :: x in SortBy(RankBefore, values) <==> x in FusedItems(key, outputs, k)
  {
    ListingHasDistinctUrls(key, outputs, order, values);
    DistinctUrlsAreComparable(values);
    ComparatorsAreStrictOrders();
    SortBySorts(RankBefore, values);
    forall x ensures x in values <==> x in FusedItems(key, outputs, k) {
      if x in FusedItems(key, outputs, k) {
        var c :| c in table && table[c] == x;
        var i :| 0 <= i < |order| && order[i] == c;
        assert values[i] == x;
      }
    }
  }

  lemma SortedKept(key: KeyOf, outputs: seq<SubQuery>, table: map<string, Item>,
                   order: seq<string>, values: seq<Item>)
    requires IsKeptTable(table, Hits(key, outputs))
    requires IsListing(table, order, values)
    ensures StrictlySorted(PositionBefore, SortBy(PositionBefore, values))
    ensures forall x :: x in SortBy(PositionBefore, values) <==> x in KeptItems(key, outputs)
  {
    ListingHasDistinctUrls(key, outputs, order, values);
    DistinctUrlsAreComparable(values);
    ComparatorsAreStrictOrders();
    SortBySorts(PositionBefore, values);
    forall x ensures x in values <==> x in KeptItems(key, outputs) {
      if x in KeptItems(key, outputs) {
        var c :| c in table && table[c] == x;
        var i :| 0 <= i < |order| && order[i] == c;
        assert values[i] == x;
      }
    }
  }

  /** The loop body: from the fusion of the rows met so far under a key to the fusion with one row more. */
  method MergeRow(k: nat, ghost hits: seq<Hit>, found: Option<Item>, rank: Rank, query: string, r: Row)
    returns (entry: Item)
    requires found == if hits == [] then None else Some(Fuse(k, hits))
    ensures entry == Fuse(k, hits + [Hit(rank, query, r)])
  {
    hide Fuse;
    FuseSnoc(k, hits, Hit(rank, query, r));
    var score := 1.0 / (k + rank) as real;
    entry := if found.Some? then found.value
             else Item(r.url, "", r.displayUrl, r.snippet, 0.0, rank, []);
    entry := entry.(score := entry.score + score);
    if entry.title == "" {
      entry := entry.(title := r.title);
    }
    if entry.displayUrl.None? {
      entry := entry.(displayUrl := r.displayUrl);
    }
    if entry.snippet.None? {
      entry := entry.(snippet := r.snippet);
    }
    if rank < entry.position {
      entry := entry.(position := rank);
    }
    if query != "" && query !in entry.sources {
      entry := entry.(sources := entry.sources + [query]);
    }
  }

  /**
   * Reciprocal rank fusion. Whatever order the hash map lists its entries in, the result is the
   * one strictly sorted listing of the fused items.
   */
  method RrfAggregate(key: KeyOf, outputs: seq<SubQuery>, k: nat) returns (out: seq<Item>)
    ensures StrictlySorted(RankBefore, out)
    ensures forall x :: x in out <==> x in FusedItems(key, outputs, k)
  {
    hide Fuse;
    var table: map<string, Item> := map[];
    for i := 0 to |outputs|
      invariant IsFusedTable(table, Hits(key, outputs[..i]), k)
    {
      NextSubQuery(key, outputs, i);
      var output := outputs[i];
      for j := 0 to |output.results|
        invariant IsFusedTable(table, HitsSoFar(key, outputs, i, j), k)
      {
        var r := output.results[j];
        var c := key(r.url);
        ghost var ms, m := HitsSoFar(key, outputs, i, j), RowHit(key, output, j);
        GroupNonEmpty(ms, c);
        var entry := MergeRow(k, Group(ms, c), if c in table then Some(table[c]) else None, j + 1, output.query, r);
        FusedTableStep(table, ms, m, k, entry);
        NextHit(key, outputs, i, j);
        table := table[c := entry];
      }
    }
    assert outputs[..|outputs|] == outputs;
    out := IntoValues(table);
    ghost var order :| IsListing(table, order, out);
    SortedFusion(key, outputs, k, table, order, out);
    out := SortBy(RankBefore, out);
  }

  /** First-seen deduplication: the first row of each key, sorted by position and then URL. */
  method DedupeByUrl(key: KeyOf, outputs: seq<SubQuery>) returns (out: seq<Item>)
    ensures StrictlySorted(PositionBefore, out)
    ensures forall x :: x in out <==> x in KeptItems(key, outputs)
  {
    var table: map<string, Item> := map[];
    for i := 0 to |outputs|
      invariant IsKeptTable(table, Hits(key, outputs[..i]))
    {
      NextSubQuery(key, outputs, i);
      var output := outputs[i];
      for j := 0 to |output.results|
        invariant IsKeptTable(table, HitsSoFar(key, outputs, i, j))
      {
        var r := output.results[j];
        var c := key(r.url);
        var entry := if c in table then table[c]
                     else Item(r.url, r.title, r.displayUrl, r.snippet, 1.0, j + 1,
                               if output.query == "" then [] else [output.query]);
        ghost var ms, m := HitsSoFar(key, outputs, i, j), RowHit(key, output, j);
        KeptTableStep(table, ms, m);
        NextHit(key, outputs, i, j);
        table := table[c := entry];
      }
    }
    assert outputs[..|outputs|] == outputs;
    out := IntoValues(table);
    ghost var order :| IsListing(table, order, out);
    SortedKept(key, outputs, table, order, out);
    out := SortBy(PositionBefore, out);
  }
}
