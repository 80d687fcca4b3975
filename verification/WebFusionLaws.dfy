/** What the fused web ranking promises over whole runs. */
module WebFusionLaws {
  import opened Common
  import opened Ordering
  import opened Fusion
  import opened WebFusion

  // ----- One output for every iteration order of the hash map -----

  /** `RrfAggregate`'s two postconditions admit one sequence only. */
  lemma FusedRankingUnique(key: KeyOf, outputs: seq<SubQuery>, k: nat, a: seq<Item>, b: seq<Item>)
    requires StrictlySorted(RankBefore, a) && StrictlySorted(RankBefore, b)
    requires forall x :: x in a <==> x in FusedItems(key, outputs, k)
    requires forall x :: x in b <==> x in FusedItems(key, outputs, k)
    ensures a == b
  {
    ComparatorsAreStrictOrders();
    StrictlySortedUnique(RankBefore, a, b);
  }

  lemma KeptListingUnique(key: KeyOf, outputs: seq<SubQuery>, a: seq<Item>, b: seq<Item>)
    requires StrictlySorted(PositionBefore, a) && StrictlySorted(PositionBefore, b)
    requires forall x :: x in a <==> x in KeptItems(key, outputs)
    requires forall x :: x in b <==> x in KeptItems(key, outputs)
    ensures a == b
  {
    ComparatorsAreStrictOrders();
    StrictlySortedUnique(PositionBefore, a, b);
  }

  // ----- The fields of a fused item, said without the recursions that compute them -----

  lemma {:induction false} BestRankIsMinimum(hits: seq<Hit>)
    requires hits != []
    ensures exists h :: h in hits && h.rank == BestRank(hits)
    ensures forall h :: h in hits ==> BestRank(hits) <= h.rank
  {
    if |hits| == 1 {
      assert hits[0] in hits;
    } else {
      BestRankIsMinimum(hits[1..]);
      var h :| h in hits[1..] && h.rank == BestRank(hits[1..]);
      assert h in hits && hits[0] in hits;
    }
  }

  /** `i` is where `hits` first has a row satisfying `p`, or the length when there is none. */
  ghost predicate FirstAt(hits: seq<Hit>, p: Hit -> bool, i: nat) {
    && i <= |hits|
    && (forall j :: 0 <= j < i ==> !p(hits[j]))
    && (i < |hits| ==> p(hits[i]))
  }

  /**
   * Title, snippet and display URL come from the first row that has one; the URL from the first
   * row; the position is the least rank; the sources are the distinct non-empty queries in
   * first-mention order.
   */
  lemma FusedFields(k: nat, hits: seq<Hit>) returns (t: nat, d: nat, s: nat)
    requires hits != []
    ensures FirstAt(hits, HasTitle, t) && FirstAt(hits, HasDisplayUrl, d) && FirstAt(hits, HasSnippet, s)
    ensures Fuse(k, hits).url == hits[0].row.url
    ensures Fuse(k, hits).title == if t < |hits| then hits[t].row.title else ""
    ensures Fuse(k, hits).displayUrl == if d < |hits| then hits[d].row.displayUrl else None
    ensures Fuse(k, hits).snippet == if s < |hits| then hits[s].row.snippet else None
    ensures exists h :: h in hits && h.rank == Fuse(k, hits).position
    ensures forall h :: h in hits ==> Fuse(k, hits).position <= h.rank
    ensures var sources := Fuse(k, hits).sources;
            && (forall q :: q in sources <==> q in Queries(hits) && q != "")
            && (forall i, j :: 0 <= i < j < |sources| ==> MentionedBefore(Queries(hits), sources[i], sources[j]))
  {
    t := FirstWhereIndex(hits, HasTitle);
    d := FirstWhereIndex(hits, HasDisplayUrl);
    s := FirstWhereIndex(hits, HasSnippet);
    BestRankIsMinimum(hits);
    DistinctSpec(Queries(hits));
  }

  // ----- The listings, said without their comparators -----

  /** Scores never rise; equal scores stand by position, equal positions by URL. */
  lemma RankedOrder(key: KeyOf, outputs: seq<SubQuery>, k: nat, out: seq<Item>, i: nat, j: nat)
    requires StrictlySorted(RankBefore, out)
    requires forall x :: x in out <==> x in FusedItems(key, outputs, k)
    requires i < j < |out|
    ensures out[i].score >= out[j].score
    ensures out[i].score == out[j].score ==> out[i].position <= out[j].position
    ensures out[i].score == out[j].score && out[i].position == out[j].position ==> StrLess(out[i].url, out[j].url)
  {
    assert RankBefore(out[i], out[j]);
  }

  /** Rows of a listing of sub-queries before the `i`-th. */
  function RowsBefore(outputs: seq<SubQuery>, i: nat): nat
    requires i <= |outputs|
  {
    if i == 0 then 0 else |outputs[0].results| + RowsBefore(outputs[1..], i - 1)
  }

  /** The rows are traversed sub-query by sub-query, with 1-based ranks. */
  lemma {:induction false} HitOfRow(key: KeyOf, outputs: seq<SubQuery>, i: nat, j: nat)
    requires i < |outputs| && j < |outputs[i].results|
    ensures RowsBefore(outputs, i) + j < |Hits(key, outputs)|
    ensures var m := Hits(key, outputs)[RowsBefore(outputs, i) + j]; var r := outputs[i].results[j];
            m.key == key(r.url) && m.row.rank == j + 1 && m.row.query == outputs[i].query && m.row.row == r
  {
    if i > 0 {
      HitOfRow(key, outputs[1..], i - 1, j);
    }
  }

  lemma {:induction false} RowOfHit(key: KeyOf, outputs: seq<SubQuery>, p: nat) returns (i: nat, j: nat)
    requires p < |Hits(key, outputs)|
    ensures i < |outputs| && j < |outputs[i].results| && p == RowsBefore(outputs, i) + j
  {
    if p < |outputs[0].results| {
      i, j := 0, p;
    } else {
      i, j := RowOfHit(key, outputs[1..], p - |outputs[0].results|);
      i := i + 1;
    }
  }

  lemma {:induction false} EarlierSubQueryFirst(outputs: seq<SubQuery>, i: nat, j: nat, i': nat)
    requires i < i' < |outputs| && j < |outputs[i].results|
    ensures RowsBefore(outputs, i) + j < RowsBefore(outputs, i')
  {
    if i > 0 {
      EarlierSubQueryFirst(outputs[1..], i - 1, j, i' - 1);
    }
  }

  /** Row `j` of sub-query `i` is the first one, sub-query by sub-query, whose URL has this key. */
  ghost predicate IsFirstRow(key: KeyOf, outputs: seq<SubQuery>, c: string, i: nat, j: nat) {
    && i < |outputs| && j < |outputs[i].results| && key(outputs[i].results[j].url) == c
    && (forall i', j' :: 0 <= i' < i && 0 <= j' < |outputs[i'].results| ==> key(outputs[i'].results[j'].url) != c)
    && (forall j' :: 0 <= j' < j ==> key(outputs[i].results[j'].url) != c)
  }

  lemma FirstRowOfKey(key: KeyOf, outputs: seq<SubQuery>, c: string) returns (i: nat, j: nat)
    requires Group(Hits(key, outputs), c) != []
    ensures IsFirstRow(key, outputs, c, i, j)
    ensures Group(Hits(key, outputs), c)[0] == Hit(j + 1, outputs[i].query, outputs[i].results[j])
  {
    var p := GroupHead(Hits(key, outputs), c);
    i, j := RowOfHit(key, outputs, p);
    HitOfRow(key, outputs, i, j);
    hide Hits, Group, RowsBefore;
    forall i', j' | 0 <= i' < i && 0 <= j' < |outputs[i'].results| ensures key(outputs[i'].results[j'].url) != c {
      HitOfRow(key, outputs, i', j');
      EarlierSubQueryFirst(outputs, i', j', i);
    }
    forall j' | 0 <= j' < j ensures key(outputs[i].results[j'].url) != c {
      HitOfRow(key, outputs, i, j');
    }
  }

  /** The item is the row as it was found at this rank. */
  predicate HoldsRow(x: Item, query: string, r: Row, rank: nat) {
    && x.url == r.url && x.title == r.title && x.displayUrl == r.displayUrl && x.snippet == r.snippet
    && x.position == rank && x.score == 1.0 && x.sources == if query == "" then [] else [query]
  }

  /** Every kept item is the first row of its key, with that row's rank, query and fields. */
  lemma KeptIsFirstRow(key: KeyOf, outputs: seq<SubQuery>, x: Item)
    requires x in KeptItems(key, outputs)
    ensures exists i: nat, j: nat :: IsFirstRow(key, outputs, key(x.url), i, j) && HoldsRow(x, outputs[i].query, outputs[i].results[j], j + 1)
  {
    hide Hits, Group, Keys;
    var ms := Hits(key, outputs);
    var c :| c in Keys(ms) && Group(ms, c) != [] && x == KeepFirst(Group(ms, c));
    var i, j := FirstRowOfKey(key, outputs, c);
    assert IsFirstRow(key, outputs, key(x.url), i, j);
  }

  /** And every row's key has a kept item. */
  lemma EveryKeyIsKept(key: KeyOf, outputs: seq<SubQuery>, i: nat, j: nat)
    requires i < |outputs| && j < |outputs[i].results|
    ensures exists x :: x in KeptItems(key, outputs) && key(x.url) == key(outputs[i].results[j].url)
  {
    hide Group;
    HitOfRow(key, outputs, i, j);
    hide Hits;
    var ms, c := Hits(key, outputs), key(outputs[i].results[j].url);
    assert ms[RowsBefore(outputs, i) + j] in ms;
    GroupNonEmpty(ms, c);
    var i', j' := FirstRowOfKey(key, outputs, c);
    assert KeepFirst(Group(ms, c)) in KeptItems(key, outputs);
  }

  /** Kept rows stand by their rank, and equal ranks by URL. */
  lemma KeptOrder(key: KeyOf, outputs: seq<SubQuery>, out: seq<Item>, i: nat, j: nat)
    requires StrictlySorted(PositionBefore, out)
    requires forall x :: x in out <==> x in KeptItems(key, outputs)
    requires i < j < |out|
    ensures out[i].position <= out[j].position
    ensures out[i].position == out[j].position ==> StrLess(out[i].url, out[j].url)
  {
    assert PositionBefore(out[i], out[j]);
  }

  // ----- Conservation of score -----

  /** The weight of every row met, no matter its key. */
  function TotalWeight(k: nat, ms: seq<Keyed<Hit>>): real {
    if ms == [] then 0.0 else Weight(k, ms[0].row) + TotalWeight(k, ms[1..])
  }

  function SumScores(items: seq<Item>): real {
    if items == [] then 0.0 else items[0].score + SumScores(items[1..])
  }

  function SumGroups(k: nat, keys: seq<string>, ms: seq<Keyed<Hit>>): real {
    if keys == [] then 0.0 else Score(k, Group(ms, keys[0])) + SumGroups(k, keys[1..], ms)
  }

  lemma {:induction false} SumGroupsOfNothing(k: nat, keys: seq<string>)
    ensures SumGroups(k, keys, []) == 0.0
  {
    if keys != [] {
      assert Group<Hit>([], keys[0]) == [];
      SumGroupsOfNothing(k, keys[1..]);
    }
  }

  /** One more row adds its weight to the sum over groups exactly once, if its key is listed. */
  lemma {:induction false} SumGroupsCons(k: nat, keys: seq<string>, m: Keyed<Hit>, ms: seq<Keyed<Hit>>)
    requires NoDuplicates(keys)
    ensures SumGroups(k, keys, [m] + ms)
         == SumGroups(k, keys, ms) + if m.key in keys then Weight(k, m.row) else 0.0
  {
    if keys != [] {
      SumGroupsCons(k, keys[1..], m, ms);
      assert ([m] + ms)[1..] == ms;
      if m.key == keys[0] {
        assert ([m.row] + Group(ms, keys[0]))[1..] == Group(ms, keys[0]);
        assert m.key !in keys[1..];
      } else {
        assert [] + Group(ms, keys[0]) == Group(ms, keys[0]);
        assert m.key in keys <==> m.key in keys[1..];
      }
    }
  }

  lemma {:induction false} SumGroupsIsTotal(k: nat, keys: seq<string>, ms: seq<Keyed<Hit>>)
    requires NoDuplicates(keys)
    requires forall m :: m in ms ==> m.key in keys
    ensures SumGroups(k, keys, ms) == TotalWeight(k, ms)
  {
    if ms == [] {
      SumGroupsOfNothing(k, keys);
    } else {
      assert ms == [ms[0]] + ms[1..];
      SumGroupsCons(k, keys, ms[0], ms[1..]);
      SumGroupsIsTotal(k, keys, ms[1..]);
    }
  }

  function ItemKeys(key: KeyOf, items: seq<Item>): seq<string> {
    seq(|items|, i requires 0 <= i < |items| => key(items[i].url))
  }

  /** A fused item is the fusion of the group named by the key of its own URL. */
  lemma FusedItemKey(key: KeyOf, outputs: seq<SubQuery>, k: nat, x: Item)
    requires x in FusedItems(key, outputs, k)
    ensures var ms := Hits(key, outputs); var c := key(x.url);
            c in Keys(ms) && Group(ms, c) != [] && x == Fuse(k, Group(ms, c))
  {
    var ms := Hits(key, outputs);
    var c :| c in Keys(ms) && Group(ms, c) != [] && x == Fuse(k, Group(ms, c));
    GroupIsFiledByUrl(key, outputs, c);
    assert Group(ms, c)[0] in Group(ms, c);
  }

  /** Each key appears in the ranking exactly once. */
  lemma RankedKeysAreDistinct(key: KeyOf, outputs: seq<SubQuery>, k: nat, out: seq<Item>)
    requires StrictlySorted(RankBefore, out)
    requires forall x :: x in out <==> x in FusedItems(key, outputs, k)
    ensures NoDuplicates(ItemKeys(key, out))
    ensures forall c :: c in ItemKeys(key, out) <==> c in Keys(Hits(key, outputs))
  {
    hide Fuse;
    var ms, cs := Hits(key, outputs), ItemKeys(key, out);
    ComparatorsAreStrictOrders();
    forall i, j | 0 <= i < j < |out| ensures cs[i] != cs[j] {
      FusedItemKey(key, outputs, k, out[i]);
      FusedItemKey(key, outputs, k, out[j]);
      assert RankBefore(out[i], out[j]);
    }
    forall c ensures c in cs <==> c in Keys(ms) {
      if c in cs {
        var i :| 0 <= i < |cs| && cs[i] == c;
        FusedItemKey(key, outputs, k, out[i]);
      }
      if c in Keys(ms) {
        GroupNonEmpty(ms, c);
        var x := Fuse(k, Group(ms, c));
        assert x in out;
        GroupIsFiledByUrl(key, outputs, c);
        assert x.url == Group(ms, c)[0].row.url by { FuseUrl(k, Group(ms, c)); }
        assert Group(ms, c)[0] in Group(ms, c);
        var i :| 0 <= i < |out| && out[i] == x;
        assert cs[i] == c;
      }
    }
  }

  lemma FuseUrl(k: nat, hits: seq<Hit>)
    requires hits != []
    ensures Fuse(k, hits).url == hits[0].row.url
    ensures Fuse(k, hits).score == Score(k, hits)
  {
  }

  lemma {:induction false} SumScoresByKey(key: KeyOf, outputs: seq<SubQuery>, k: nat, out: seq<Item>)
    requires forall x :: x in out ==> x in FusedItems(key, outputs, k)
    ensures SumScores(out) == SumGroups(k, ItemKeys(key, out), Hits(key, outputs))
  {
    if out != [] {
      hide Fuse;
      FusedItemKey(key, outputs, k, out[0]);
      FuseUrl(k, Group(Hits(key, outputs), key(out[0].url)));
      assert ItemKeys(key, out)[1..] == ItemKeys(key, out[1..]);
      SumScoresByKey(key, outputs, k, out[1..]);
    }
  }

  /** No score is lost or invented: the ranking's scores add up to the weights of all rows. */
  lemma ScoreIsConserved(key: KeyOf, outputs: seq<SubQuery>, k: nat, out: seq<Item>)
    requires StrictlySorted(RankBefore, out)
    requires forall x :: x in out <==> x in FusedItems(key, outputs, k)
    ensures SumScores(out) == TotalWeight(k, Hits(key, outputs))
  {
    var ms := Hits(key, outputs);
    RankedKeysAreDistinct(key, outputs, k, out);
    SumScoresByKey(key, outputs, k, out);
    SumGroupsIsTotal(k, ItemKeys(key, out), ms);
  }

  // ----- Permuting the sub-queries -----

  lemma {:induction false} HitsConcat(key: KeyOf, a: seq<SubQuery>, b: seq<SubQuery>)
    ensures Hits(key, a + b) == Hits(key, a) + Hits(key, b)
  {
    if a == [] {
      assert a + b == b;
    } else {
      assert (a + b)[1..] == a[1..] + b;
      HitsConcat(key, a[1..], b);
    }
  }

  /** Sub-queries in another order mention the same rows, each as often. */
  lemma {:induction false} PermutedHits(key: KeyOf, a: seq<SubQuery>, b: seq<SubQuery>)
    requires multiset(a) == multiset(b)
    ensures multiset(Hits(key, a)) == multiset(Hits(key, b))
  {
    if a == [] {
      assert |multiset(b)| == |b|;
      assert b == [];
    } else {
      var i := TakeOutHead(a, b);
      var rest := b[..i] + b[i + 1..];
      PermutedHits(key, a[1..], rest);
      HitsConcat(key, b[..i] + [b[i]], b[i + 1..]);
      HitsConcat(key, b[..i], [b[i]]);
      HitsConcat(key, b[..i], b[i + 1..]);
      assert [b[i]][1..] == [];
      assert Hits(key, [b[i]]) == RowHits(key, b[i]) + Hits(key, []);
    }
  }

  lemma {:induction false} GroupMultiset(a: seq<Keyed<Hit>>, b: seq<Keyed<Hit>>, c: string)
    requires multiset(a) == multiset(b)
    ensures multiset(Group(a, c)) == multiset(Group(b, c))
  {
    if a == [] {
      assert |multiset(b)| == |b|;
      assert b == [];
    } else {
      var i := TakeOutHead(a, b);
      var rest := b[..i] + b[i + 1..];
      GroupMultiset(a[1..], rest, c);
      GroupConcat(b[..i] + [b[i]], b[i + 1..], c);
      GroupSnoc(b[..i], b[i], c);
      GroupConcat(b[..i], b[i + 1..], c);
    }
  }

  lemma {:induction false} ScoreConcat(k: nat, a: seq<Hit>, b: seq<Hit>)
    ensures Score(k, a + b) == Score(k, a) + Score(k, b)
  {
    if a == [] {
      assert a + b == b;
    } else {
      assert (a + b)[1..] == a[1..] + b;
      ScoreConcat(k, a[1..], b);
    }
  }

  lemma {:induction false} ScoreIgnoresOrder(k: nat, a: seq<Hit>, b: seq<Hit>)
    requires multiset(a) == multiset(b)
    ensures Score(k, a) == Score(k, b)
  {
    if a == [] {
      assert |multiset(b)| == |b|;
      assert b == [];
    } else {
      var i := TakeOutHead(a, b);
      var rest := b[..i] + b[i + 1..];
      ScoreIgnoresOrder(k, a[1..], rest);
      ScoreConcat(k, b[..i] + [b[i]], b[i + 1..]);
      ScoreSnoc(k, b[..i], b[i]);
      ScoreConcat(k, b[..i], b[i + 1..]);
    }
  }

  lemma BestRankIgnoresOrder(a: seq<Hit>, b: seq<Hit>)
    requires a != [] && b != [] && multiset(a) == multiset(b)
    ensures BestRank(a) == BestRank(b)
  {
    BestRankIsMinimum(a);
    BestRankIsMinimum(b);
    var x :| x in a && x.rank == BestRank(a);
    var y :| y in b && y.rank == BestRank(b);
    assert x in multiset(b) && y in multiset(a);
  }

  /** Dispatching the sub-queries in another order changes no key's score or position. */
  lemma SubQueryOrderKeepsScoreAndPosition(key: KeyOf, a: seq<SubQuery>, b: seq<SubQuery>, k: nat, c: string)
    requires multiset(a) == multiset(b)
    ensures var x, y := Group(Hits(key, a), c), Group(Hits(key, b), c);
            && (x == [] <==> y == [])
            && (x != [] ==> Fuse(k, x).score == Fuse(k, y).score && Fuse(k, x).position == Fuse(k, y).position)
  {
    PermutedHits(key, a, b);
    GroupMultiset(Hits(key, a), Hits(key, b), c);
    var x, y := Group(Hits(key, a), c), Group(Hits(key, b), c);
    assert |multiset(x)| == |x| && |multiset(y)| == |y|;
    if x != [] {
      ScoreIgnoresOrder(k, x, y);
      BestRankIgnoresOrder(x, y);
    }
  }

  // ----- The whole ranking under permutation -----

  /** What the comparator looks at. */
  datatype Place = Place(url: string, score: real, position: nat)

  predicate PlaceBefore(a: Place, b: Place) {
    a.score > b.score
    || (a.score == b.score
        && (a.position < b.position || (a.position == b.position && StrLess(a.url, b.url))))
  }

  function PlaceOf(x: Item): Place {
    Place(x.url, x.score, x.position)
  }

  function Places(items: seq<Item>): seq<Place> {
    seq(|items|, i requires 0 <= i < |items| => PlaceOf(items[i]))
  }

  lemma PlaceBeforeIsStrictOrder()
    ensures StrictOrder(PlaceBefore)
  {
    forall a: Place ensures !StrLess(a.url, a.url) {
      StrLessIrreflexive(a.url);
    }
    forall a: Place, b: Place, c: Place | StrLess(a.url, b.url) && StrLess(b.url, c.url)
      ensures StrLess(a.url, c.url)
    {
      StrLessTransitive(a.url, b.url, c.url);
    }
  }

  /** No two different URLs among the rows share a canonical key. */
  ghost predicate KeysTellUrlsApart(key: KeyOf, outputs: seq<SubQuery>) {
    forall m, n :: m in Hits(key, outputs) && n in Hits(key, outputs) && m.key == n.key ==>
      m.row.row.url == n.row.row.url
  }

  lemma PlacesCarryOver(key: KeyOf, a: seq<SubQuery>, b: seq<SubQuery>, k: nat, outA: seq<Item>, outB: seq<Item>)
    requires multiset(a) == multiset(b) && KeysTellUrlsApart(key, a)
    requires forall x :: x in outA <==> x in FusedItems(key, a, k)
    requires forall x :: x in outB <==> x in FusedItems(key, b, k)
    ensures forall p :: p in Places(outA) ==> p in Places(outB)
  {
    hide Fuse;
    var ms, ns := Hits(key, a), Hits(key, b);
    PermutedHits(key, a, b);
    forall p | p in Places(outA) ensures p in Places(outB) {
      var i :| 0 <= i < |outA| && PlaceOf(outA[i]) == p;
      var c := key(outA[i].url);
      FusedItemKey(key, a, k, outA[i]);
      SubQueryOrderKeepsScoreAndPosition(key, a, b, k, c);
      var x, y := Group(ms, c), Group(ns, c);
      FuseUrl(k, x);
      FuseUrl(k, y);
      GroupMember(ms, c, x[0]);
      GroupMember(ns, c, y[0]);
      GroupNonEmpty(ns, c);
      assert Keyed(c, y[0]) in multiset(ns);
      assert Keyed(c, y[0]) in ms;
      assert Fuse(k, y) in outB;
      var j :| 0 <= j < |outB| && outB[j] == Fuse(k, y);
      assert Places(outB)[j] == p;
    }
  }

  /**
   * When keys tell URLs apart, the ranking (its URLs, scores and positions, in order) does not
   * depend on the order in which the sub-queries were dispatched.
   */
  lemma RankingIgnoresSubQueryOrder(key: KeyOf, a: seq<SubQuery>, b: seq<SubQuery>, k: nat,
                                    outA: seq<Item>, outB: seq<Item>)
    requires multiset(a) == multiset(b) && KeysTellUrlsApart(key, a)
    requires StrictlySorted(RankBefore, outA) && StrictlySorted(RankBefore, outB)
    requires forall x :: x in outA <==> x in FusedItems(key, a, k)
    requires forall x :: x in outB <==> x in FusedItems(key, b, k)
    ensures Places(outA) == Places(outB)
  {
    PermutedHits(key, a, b);
    forall m | m in Hits(key, b) ensures m in Hits(key, a) {
      assert m in multiset(Hits(key, b));
    }
    PlacesCarryOver(key, a, b, k, outA, outB);
    PlacesCarryOver(key, b, a, k, outB, outA);
    PlaceBeforeIsStrictOrder();
    assert forall i, j :: 0 <= i < j < |outA| ==> RankBefore(outA[i], outA[j]);
    assert forall i, j :: 0 <= i < j < |outB| ==> RankBefore(outB[i], outB[j]);
    StrictlySortedUnique(PlaceBefore, Places(outA), Places(outB));
  }

  // ----- Scores and positions alone -----

  datatype Standing = Standing(score: real, position: nat)

  predicate StandingBefore(a: Standing, b: Standing) {
    a.score > b.score || (a.score == b.score && a.position < b.position)
  }

  function StandingOf(x: Item): Standing {
    Standing(x.score, x.position)
  }

  function StandingOfKey(key: KeyOf, outputs: seq<SubQuery>, k: nat, c: string): Standing {
    var hits := Group(Hits(key, outputs), c);
    if hits == [] then Standing(0.0, 0) else StandingOf(Fuse(k, hits))
  }

  /** The standings of a ranking, read off its keys. */
  lemma StandingsByKey(key: KeyOf, a: seq<SubQuery>, b: seq<SubQuery>, k: nat, out: seq<Item>)
    requires multiset(a) == multiset(b)
    requires forall x :: x in out ==> x in FusedItems(key, b, k)
    ensures Mapped(StandingOf, out) == Mapped(c => StandingOfKey(key, a, k, c), ItemKeys(key, out))
  {
    hide Fuse, Hits, FusedItems;
    forall i | 0 <= i < |out| ensures StandingOf(out[i]) == StandingOfKey(key, a, k, key(out[i].url)) {
      FusedItemKey(key, b, k, out[i]);
      SubQueryOrderKeepsScoreAndPosition(key, a, b, k, key(out[i].url));
    }
  }

  lemma RankedIsSortedByStanding(out: seq<Item>)
    requires StrictlySorted(RankBefore, out)
    ensures Sorted(StandingBefore, Mapped(StandingOf, out))
  {
    var marks := Mapped(StandingOf, out);
    forall i, j | 0 <= i < j < |marks| ensures !StandingBefore(marks[j], marks[i]) {
      assert RankBefore(out[i], out[j]);
    }
  }

  lemma RankedKeysPermute(key: KeyOf, a: seq<SubQuery>, b: seq<SubQuery>, k: nat, outA: seq<Item>, outB: seq<Item>)
    requires multiset(a) == multiset(b)
    requires StrictlySorted(RankBefore, outA) && StrictlySorted(RankBefore, outB)
    requires forall x :: x in outA <==> x in FusedItems(key, a, k)
    requires forall x :: x in outB <==> x in FusedItems(key, b, k)
    ensures multiset(ItemKeys(key, outA)) == multiset(ItemKeys(key, outB))
  {
    RankedKeysAreDistinct(key, a, k, outA);
    RankedKeysAreDistinct(key, b, k, outB);
    hide FusedItems, Hits, Keys, ItemKeys, NoDuplicates, StrictlySorted;
    PermutedHits(key, a, b);
    SameKeys(Hits(key, a), Hits(key, b));
    DistinctMultiset(ItemKeys(key, outA));
    DistinctMultiset(ItemKeys(key, outB));
  }

  lemma StandingBeforeIsTotal()
    ensures TotalOrder(StandingBefore)
  {
  }

  /**
   * Whatever the keys, the sequence of scores and positions does not depend on the order in which the
   * sub-queries were dispatched.
   */
  lemma StandingsIgnoreSubQueryOrder(key: KeyOf, a: seq<SubQuery>, b: seq<SubQuery>, k: nat,
                                     outA: seq<Item>, outB: seq<Item>)
    requires multiset(a) == multiset(b)
    requires StrictlySorted(RankBefore, outA) && StrictlySorted(RankBefore, outB)
    requires forall x :: x in outA <==> x in FusedItems(key, a, k)
    requires forall x :: x in outB <==> x in FusedItems(key, b, k)
    ensures Mapped(StandingOf, outA) == Mapped(StandingOf, outB)
  {
    RankedKeysPermute(key, a, b, k, outA, outB);
    StandingsByKey(key, a, a, k, outA);
    StandingsByKey(key, a, b, k, outB);
    RankedIsSortedByStanding(outA);
    RankedIsSortedByStanding(outB);
    StandingBeforeIsTotal();
    hide *;
    MappedPermutation(c => StandingOfKey(key, a, k, c), ItemKeys(key, outA), ItemKeys(key, outB));
    SortedPermutationUnique(StandingBefore, Mapped(StandingOf, outA), Mapped(StandingOf, outB));
  }

  lemma SameKeys(ms: seq<Keyed<Hit>>, ns: seq<Keyed<Hit>>)
    requires multiset(ms) == multiset(ns)
    ensures Keys(ms) == Keys(ns)
  {
    forall c | c in Keys(ms) ensures c in Keys(ns) {
      var m :| m in ms && m.key == c;
      assert m in multiset(ns);
    }
    forall c | c in Keys(ns) ensures c in Keys(ms) {
      var m :| m in ns && m.key == c;
      assert m in multiset(ms);
    }
  }

  // ----- Where the code and its comments part -----

  lemma TwoSingleRowSubQueries(key: KeyOf, first: SubQuery, second: SubQuery)
    requires |first.results| == |second.results| == 1
    requires key(first.results[0].url) != key(second.results[0].url)
    ensures var c, d := key(first.results[0].url), key(second.results[0].url);
            var ms := Hits(key, [first, second]);
            && Keys(ms) == {c, d}
            && Group(ms, c) == [Hit(1, first.query, first.results[0])]
            && Group(ms, d) == [Hit(1, second.query, second.results[0])]
  {
    var h, g := RowHit(key, first, 0), RowHit(key, second, 0);
    assert [first, second][1..] == [second] && [second][1..] == [];
    assert RowHits(key, first) == [h] && RowHits(key, second) == [g];
    assert Hits(key, [second]) == [g] + Hits(key, []);
    var ms := [h, g];
    assert Hits(key, [first, second]) == ms;
    assert ms[1..] == [g] && ms[1..][1..] == [];
    assert Group(ms[1..], h.key) == [] && Group(ms[1..], g.key) == [g.row];
    assert ms[0] in ms && ms[1] in ms;
  }

  /**
   * Deduplication does not keep the input order: a row of a later sub-query overtakes a row of an
   * earlier one when both stand at position 1 and its URL is smaller.
   */
  lemma DedupeReordersRows(key: KeyOf, first: SubQuery, second: SubQuery, out: seq<Item>)
    requires |first.results| == |second.results| == 1
    requires key(first.results[0].url) != key(second.results[0].url)
    requires StrLess(second.results[0].url, first.results[0].url)
    requires StrictlySorted(PositionBefore, out)
    requires forall x :: x in out <==> x in KeptItems(key, [first, second])
    ensures |out| == 2 && out[0].url == second.results[0].url && out[1].url == first.results[0].url
  {
    TwoSingleRowSubQueries(key, first, second);
    var x, y := KeepFirst([Hit(1, first.query, first.results[0])]), KeepFirst([Hit(1, second.query, second.results[0])]);
    assert forall z :: z in out <==> z == x || z == y;
    ComparatorsAreStrictOrders();
    StrictlySortedUnique(PositionBefore, out, [y, x]);
  }

  /** Scores count rows, not sub-queries: one sub-query listing a URL twice adds both weights. */
  lemma RepeatedRowsAddUp(key: KeyOf, k: nat, query: string, r: Row)
    ensures var ms := Hits(key, [SubQuery(query, [r, r])]);
            Score(k, Group(ms, key(r.url))) == 1.0 / (k + 1) as real + 1.0 / (k + 2) as real
  {
    var q, c := SubQuery(query, [r, r]), key(r.url);
    var one, two := Hit(1, query, r), Hit(2, query, r);
    assert [q][1..] == [];
    assert RowHits(key, q) == [Keyed(c, one), Keyed(c, two)];
    assert Hits(key, [q]) == [Keyed(c, one), Keyed(c, two)] + Hits(key, []);
    var ms := [Keyed(c, one), Keyed(c, two)];
    assert Hits(key, [q]) == ms;
    assert ms[1..] == [Keyed(c, two)] && ms[1..][1..] == [];
    assert Group(ms[1..], c) == [two];
    assert Group(ms, c) == [one, two];
    assert [one, two][1..] == [two] && [two][1..] == [];
    assert Score(k, [two]) == Weight(k, two);
  }
}
