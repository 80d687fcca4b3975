/** Exactly when the fusion code does what its own comments say. */
module DocumentedFusion {
  import opened Common
  import opened Ordering
  import opened Fusion
  import opened WebFusion
  import NewsFusion
  import opened FormUrlencoded
  import opened CanonicalUrl

  // ----- "The returned list preserves the input order" -----

  /** The kept rows in input order: a row is kept when its key has not been met before. */
  function FirstRows(ms: seq<Keyed<Hit>>): seq<Item> {
    if ms == [] then []
    else
      var front, last := ms[..|ms| - 1], ms[|ms| - 1];
      FirstRows(front) + if last.key in FirstSeen(front) then [] else [KeepFirst([last.row])]
  }

  function InputOrder(key: KeyOf, outputs: seq<SubQuery>): seq<Item> {
    FirstRows(Hits(key, outputs))
  }

  /** The rows that the sub-query after `before` adds. */
  function Contribution(key: KeyOf, before: seq<SubQuery>, q: SubQuery): seq<Item> {
    NewRows(Hits(key, before), RowHits(key, q))
  }

  function NewRows(before: seq<Keyed<Hit>>, hits: seq<Keyed<Hit>>): seq<Item> {
    if hits == [] then []
    else
      var front, last := hits[..|hits| - 1], hits[|hits| - 1];
      NewRows(before, front) + if last.key in FirstSeen(before + front) then [] else [KeepFirst([last.row])]
  }

  /** Each sub-query that adds a row begins where the rows kept before it end, by position and then URL. */
  predicate HandsOverInOrder(key: KeyOf, outputs: seq<SubQuery>) {
    forall i :: 0 <= i < |outputs| ==>
      Follows(InputOrder(key, outputs[..i]), Contribution(key, outputs[..i], outputs[i]))
  }

  predicate Follows(kept: seq<Item>, added: seq<Item>) {
    kept != [] && added != [] ==> PositionBefore(kept[|kept| - 1], added[0])
  }

  lemma {:induction false} FirstRowsConcat(before: seq<Keyed<Hit>>, hits: seq<Keyed<Hit>>)
    ensures FirstRows(before + hits) == FirstRows(before) + NewRows(before, hits)
  {
    hide FirstSeen, KeepFirst;
    if hits == [] {
      assert before + hits == before;
    } else {
      var front, last := hits[..|hits| - 1], hits[|hits| - 1];
      var all := before + hits;
      assert all[..|all| - 1] == before + front && all[|all| - 1] == last;
      FirstRowsConcat(before, front);
    }
  }

  lemma InputOrderSnoc(key: KeyOf, outputs: seq<SubQuery>, q: SubQuery)
    ensures InputOrder(key, outputs + [q]) == InputOrder(key, outputs) + Contribution(key, outputs, q)
  {
    HitsSnoc(key, outputs, q);
    FirstRowsConcat(Hits(key, outputs), RowHits(key, q));
  }

  /** Within one sub-query the positions of the added rows ascend, so the rows do. */
  lemma {:induction false} ContributionAscends(before: seq<Keyed<Hit>>, hits: seq<Keyed<Hit>>)
    requires forall i :: 0 <= i < |hits| ==> hits[i].row.rank == i + 1
    ensures StrictlySorted(PositionBefore, NewRows(before, hits))
    ensures forall x :: x in NewRows(before, hits) ==> x.position <= |hits|
  {
    hide FirstSeen;
    if hits != [] {
      var front := hits[..|hits| - 1];
      ContributionAscends(before, front);
      assert forall i :: 0 <= i < |NewRows(before, front)| ==> NewRows(before, front)[i] in NewRows(before, front);
    }
  }

  lemma JoinedSorted(a: seq<Item>, b: seq<Item>)
    requires StrictlySorted(PositionBefore, b)
    ensures StrictlySorted(PositionBefore, a + b) <==> StrictlySorted(PositionBefore, a) && Follows(a, b)
  {
    ComparatorsAreStrictOrders();
    hide PositionBefore;
    var c := a + b;
    if StrictlySorted(PositionBefore, c) {
      assert forall i :: 0 <= i < |a| ==> a[i] == c[i];
      if a != [] && b != [] {
        assert PositionBefore(c[|a| - 1], c[|a|]);
      }
    }
    if StrictlySorted(PositionBefore, a) && Follows(a, b) {
      forall i, j | 0 <= i < j < |c| ensures PositionBefore(c[i], c[j]) {
        if i < |a| <= j {
          assert i < |a| - 1 ==> PositionBefore(a[i], a[|a| - 1]);
          assert j > |a| ==> PositionBefore(b[0], b[j - |a|]);
        }
      }
    }
  }

  lemma {:induction false} InputOrderSorted(key: KeyOf, outputs: seq<SubQuery>)
    ensures StrictlySorted(PositionBefore, InputOrder(key, outputs)) <==> HandsOverInOrder(key, outputs)
  {
    if outputs != [] {
      hide PositionBefore, InputOrder, Contribution, Follows;
      var n := |outputs| - 1;
      var front, q := outputs[..n], outputs[n];
      assert outputs == front + [q];
      InputOrderSorted(key, front);
      InputOrderSnoc(key, front, q);
      assert StrictlySorted(PositionBefore, Contribution(key, front, q)) by { AddedAscends(key, front, q); }
      JoinedSorted(InputOrder(key, front), Contribution(key, front, q));
      assert forall i :: 0 <= i < n ==> front[..i] == outputs[..i] && front[i] == outputs[i];
    }
  }

  lemma AddedAscends(key: KeyOf, before: seq<SubQuery>, q: SubQuery)
    ensures StrictlySorted(PositionBefore, Contribution(key, before, q))
  {
    ContributionAscends(Hits(key, before), RowHits(key, q));
  }

  /** A later row does not change what is kept of a key. */
  lemma KeptRowStays(front: seq<Keyed<Hit>>, last: Keyed<Hit>, c: string)
    requires Group(front, c) != []
    ensures Group(front + [last], c) != [] && KeepFirst(Group(front + [last], c)) == KeepFirst(Group(front, c))
  {
    GroupSnoc(front, last, c);
  }

  lemma NewRowIsKept(front: seq<Keyed<Hit>>, last: Keyed<Hit>)
    requires last.key !in FirstSeen(front)
    ensures Group(front + [last], last.key) == [last.row]
  {
    FirstSeenMembers(front);
    GroupNonEmpty(front, last.key);
    GroupSnoc(front, last, last.key);
  }

  lemma FirstRowsSnoc(front: seq<Keyed<Hit>>, last: Keyed<Hit>)
    ensures FirstRows(front + [last])
         == FirstRows(front) + if last.key in FirstSeen(front) then [] else [KeepFirst([last.row])]
  {
    var ms := front + [last];
    assert ms[..|ms| - 1] == front && ms[|ms| - 1] == last;
  }

  lemma {:induction false} FirstRowsAreKept(ms: seq<Keyed<Hit>>)
    ensures |FirstRows(ms)| == |FirstSeen(ms)|
    ensures forall i :: 0 <= i < |FirstSeen(ms)| ==>
              Group(ms, FirstSeen(ms)[i]) != [] && FirstRows(ms)[i] == KeepFirst(Group(ms, FirstSeen(ms)[i]))
  {
    if ms != [] {
      hide FirstSeen, Group, KeepFirst, FirstRows;
      var front, last := ms[..|ms| - 1], ms[|ms| - 1];
      assert ms == front + [last];
      FirstRowsAreKept(front);
      FirstSeenSnoc(front, last);
      FirstRowsSnoc(front, last);
      forall i | 0 <= i < |FirstSeen(ms)|
        ensures Group(ms, FirstSeen(ms)[i]) != [] && FirstRows(ms)[i] == KeepFirst(Group(ms, FirstSeen(ms)[i]))
      {
        if i < |FirstSeen(front)| {
          KeptRowStays(front, last, FirstSeen(front)[i]);
        } else {
          NewRowIsKept(front, last);
        }
      }
    }
  }

  lemma InputOrderIsKept(key: KeyOf, outputs: seq<SubQuery>)
    ensures forall x :: x in InputOrder(key, outputs) <==> x in KeptItems(key, outputs)
  {
    var ms := Hits(key, outputs);
    FirstRowsAreKept(ms);
    FirstSeenMembers(ms);
    hide Group, FirstSeen, Hits, KeepFirst, Keys, FirstRows;
    var listed := InputOrder(key, outputs);
    forall x | x in listed ensures x in KeptItems(key, outputs) {
      var i :| 0 <= i < |listed| && listed[i] == x;
      assert FirstSeen(ms)[i] in Keys(ms);
    }
    forall x | x in KeptItems(key, outputs) ensures x in listed {
      var c :| c in Keys(ms) && Group(ms, c) != [] && x == KeepFirst(Group(ms, c));
      var i :| 0 <= i < |FirstSeen(ms)| && FirstSeen(ms)[i] == c;
      assert listed[i] == x;
    }
  }

  /**
   * Deduplication keeps the input order exactly when every sub-query that adds a row adds its first
   * one behind the last row kept so far. Within a sub-query the order always stays.
   */
  lemma InputOrderKeptExactly(key: KeyOf, outputs: seq<SubQuery>, out: seq<Item>)
    requires StrictlySorted(PositionBefore, out)
    requires forall x :: x in out <==> x in KeptItems(key, outputs)
    ensures out == InputOrder(key, outputs) <==> HandsOverInOrder(key, outputs)
  {
    ComparatorsAreStrictOrders();
    InputOrderIsKept(key, outputs);
    InputOrderSorted(key, outputs);
    hide PositionBefore, KeptItems, InputOrder, HandsOverInOrder;
    if HandsOverInOrder(key, outputs) {
      StrictlySortedUnique(PositionBefore, out, InputOrder(key, outputs));
    }
  }

  /** A single sub-query always keeps its order. */
  lemma SingleSubQueryKeepsOrder(key: KeyOf, q: SubQuery, out: seq<Item>)
    requires StrictlySorted(PositionBefore, out)
    requires forall x :: x in out <==> x in KeptItems(key, [q])
    ensures out == InputOrder(key, [q])
  {
    hide PositionBefore, KeptItems, Contribution;
    InputOrderKeptExactly(key, [q], out);
    assert [q][..0] == [];
  }

  // ----- "Scores are summed across all sub-queries that mention the URL" -----

  /** How many sub-queries list a row under the key. */
  function Mentions(key: KeyOf, outputs: seq<SubQuery>, c: string): nat {
    if outputs == [] then 0
    else (if Group(RowHits(key, outputs[0]), c) == [] then 0 else 1) + Mentions(key, outputs[1..], c)
  }

  /** A score has one term per sub-query exactly when no sub-query lists the key twice; it never has fewer. */
  lemma {:induction false} OneTermPerSubQueryExactly(key: KeyOf, outputs: seq<SubQuery>, c: string)
    ensures |Group(Hits(key, outputs), c)| >= Mentions(key, outputs, c)
    ensures |Group(Hits(key, outputs), c)| == Mentions(key, outputs, c)
       <==> forall i :: 0 <= i < |outputs| ==> |Group(RowHits(key, outputs[i]), c)| <= 1
  {
    hide Group, RowHits;
    if outputs == [] {
      assert Group<Hit>([], c) == [] by { NothingGrouped(c); }
    } else {
      GroupConcat(RowHits(key, outputs[0]), Hits(key, outputs[1..]), c);
      OneTermPerSubQueryExactly(key, outputs[1..], c);
      assert forall i :: 0 <= i < |outputs[1..]| ==> outputs[1..][i] == outputs[i + 1];
    }
  }

  lemma NothingGrouped(c: string)
    ensures Group<Hit>([], c) == []
  {
  }

  // ----- "Number of sub-queries in which this news item appeared" -----

  function RowsOf(key: KeyOf, news: Option<seq<NewsFusion.NewsRow>>): seq<Keyed<NewsFusion.NewsRow>> {
    if news.Some? then NewsFusion.NewsHits(key, news.value) else []
  }

  function NewsMentions(key: KeyOf, outputs: seq<Option<seq<NewsFusion.NewsRow>>>, c: string): nat {
    if outputs == [] then 0
    else (if Group(RowsOf(key, outputs[0]), c) == [] then 0 else 1) + NewsMentions(key, outputs[1..], c)
  }

  lemma {:induction false} NewsRowsAndMentions(key: KeyOf, outputs: seq<Option<seq<NewsFusion.NewsRow>>>, c: string)
    ensures |Group(NewsFusion.Hits(key, outputs), c)| >= NewsMentions(key, outputs, c)
    ensures |Group(NewsFusion.Hits(key, outputs), c)| == NewsMentions(key, outputs, c)
       <==> forall i :: 0 <= i < |outputs| ==> |Group(RowsOf(key, outputs[i]), c)| <= 1
  {
    if outputs != [] {
      assert NewsFusion.Hits(key, outputs) == RowsOf(key, outputs[0]) + NewsFusion.Hits(key, outputs[1..]);
      hide Group, RowsOf;
      GroupConcat(RowsOf(key, outputs[0]), NewsFusion.Hits(key, outputs[1..]), c);
      NewsRowsAndMentions(key, outputs[1..], c);
      assert forall i :: 0 <= i < |outputs[1..]| ==> outputs[1..][i] == outputs[i + 1];
    }
  }

  /**
   * The occurrences of a fused news item are never fewer than the sub-queries that mention it, and
   * are their number exactly when none lists it twice.
   */
  lemma OccurrencesAreSubQueriesExactly(key: KeyOf, parser: NewsFusion.AgeParser,
                                        outputs: seq<Option<seq<NewsFusion.NewsRow>>>, k: nat, x: NewsFusion.Entry)
    requires x in NewsFusion.FusedEntries(key, parser, outputs, k)
    ensures var c := key(x.item.url);
      && x.item.occurrences >= NewsMentions(key, outputs, c) >= 1
      && (x.item.occurrences == NewsMentions(key, outputs, c)
          <==> forall i :: 0 <= i < |outputs| ==> |Group(RowsOf(key, outputs[i]), c)| <= 1)
  {
    NewsFusion.NewsEntryFields(key, parser, outputs, k, x);
    var c := key(x.item.url);
    NewsRowsAndMentions(key, outputs, c);
    MentionedAtLeastOnce(key, outputs, c);
  }

  lemma {:induction false} MentionedAtLeastOnce(key: KeyOf, outputs: seq<Option<seq<NewsFusion.NewsRow>>>, c: string)
    requires Group(NewsFusion.Hits(key, outputs), c) != []
    ensures NewsMentions(key, outputs, c) >= 1
  {
    assert NewsFusion.Hits(key, outputs) == RowsOf(key, outputs[0]) + NewsFusion.Hits(key, outputs[1..]);
    hide Group, RowsOf;
    GroupConcat(RowsOf(key, outputs[0]), NewsFusion.Hits(key, outputs[1..]), c);
    if Group(RowsOf(key, outputs[0]), c) == [] {
      MentionedAtLeastOnce(key, outputs[1..], c);
    }
  }

  /** One sub-query that lists an item twice: two occurrences, one mention. */
  lemma OneSubQueryCanOccurTwice(key: KeyOf, n: NewsFusion.NewsRow)
    ensures var outputs := [Some([n, n])]; var c := key(n.url);
      |Group(NewsFusion.Hits(key, outputs), c)| == 2 && NewsMentions(key, outputs, c) == 1
  {
    var c, m := key(n.url), Keyed(key(n.url), n);
    var hits := NewsFusion.NewsHits(key, [n, n]);
    assert hits == [m, m];
    assert [Some([n, n])][1..] == [];
    assert NewsFusion.Hits(key, [Some([n, n])]) == hits + NewsFusion.Hits(key, []) == hits;
    assert [m, m][1..] == [m] && [m][1..] == [];
    assert Group([m], c) == [n];
    assert Group([m, m], c) == [n, n];
  }

  // ----- "Score in [0.0, 1.0]" -----

  /** A product as a function, so that proofs can go by its few laws. */
  function Product(a: real, b: real): real {
    a * b
  }

  lemma ProductOfSum(w: real, s: real, d: real)
    ensures Product(w + s, d) == Product(w, d) + Product(s, d)
  {
  }

  /** A factor lies within [0, 1] when the product lies between 0 and the other factor. */
  lemma FactorWithinUnit(score: real, d: real)
    requires d > 0.0
    ensures score <= 1.0 <==> Product(score, d) <= d
    ensures score >= 0.0 <==> Product(score, d) >= 0.0
  {
    if score <= 1.0 {
      assert score * d <= 1.0 * d;
    } else {
      assert score * d > 1.0 * d;
    }
    if score < 0.0 {
      assert score * d < 0.0;
    }
  }

  lemma WeightAtMostOne(k: nat, rank: Rank)
    ensures 0.0 <= Product(1.0 / (k + rank) as real, (k + 1) as real) <= 1.0
    ensures rank == 1 ==> Product(1.0 / (k + rank) as real, (k + 1) as real) == 1.0
  {
    var w, d := 1.0 / (k + rank) as real, (k + rank) as real;
    assert w * d == 1.0;
    assert w * (k + 1) as real <= w * d;
  }

  lemma {:induction false} ScoreAtMostRows(k: nat, hits: seq<Hit>)
    ensures 0.0 <= Product(Score(k, hits), (k + 1) as real) <= |hits| as real
  {
    if hits != [] {
      ScoreAtMostRows(k, hits[1..]);
      WeightAtMostOne(k, hits[0].rank);
      ProductOfSum(Weight(k, hits[0]), Score(k, hits[1..]), (k + 1) as real);
      hide Product;
    }
  }

  /** `m` rows, all first in their sub-queries. */
  function TopRows(m: nat, h: Hit): (rows: seq<Hit>)
    ensures |rows| == m
  {
    seq(m, _ => h.(rank := 1))
  }

  lemma {:induction false} TopRowsScore(k: nat, m: nat, h: Hit)
    ensures Product(Score(k, TopRows(m, h)), (k + 1) as real) == m as real
  {
    if m > 0 {
      var rest := TopRows(m - 1, h);
      TopRowsScore(k, m - 1, h);
      assert TopRows(m, h)[1..] == rest;
      var top := TopRows(m, h)[0];
      WeightAtMostOne(k, top.rank);
      ProductOfSum(Weight(k, top), Score(k, rest), (k + 1) as real);
      hide Product;
    }
  }

  lemma FewRowsScoreWithinUnit(k: nat, hits: seq<Hit>)
    requires |hits| <= k + 1
    ensures 0.0 <= Score(k, hits) <= 1.0
  {
    hide Score, Product;
    ScoreAtMostRows(k, hits);
    FactorWithinUnit(Score(k, hits), (k + 1) as real);
  }

  lemma ManyTopRowsScoreMore(k: nat, m: nat, h: Hit)
    requires m > k + 1
    ensures Score(k, TopRows(m, h)) > 1.0
  {
    hide Score, Product, TopRows;
    TopRowsScore(k, m, h);
    FactorWithinUnit(Score(k, TopRows(m, h)), (k + 1) as real);
  }

  /** Every group of `m` rows scores within [0, 1] exactly when `m` is at most `k + 1`. */
  lemma ScoreWithinUnitExactly(k: nat, m: nat, example: Hit)
    ensures (forall hits: seq<Hit> :: |hits| == m ==> 0.0 <= Score(k, hits) <= 1.0) <==> m <= k + 1
  {
    hide Score, TopRows;
    if m <= k + 1 {
      forall hits: seq<Hit> | |hits| == m ensures 0.0 <= Score(k, hits) <= 1.0 {
        FewRowsScoreWithinUnit(k, hits);
      }
    } else {
      ManyTopRowsScoreMore(k, m, example);
    }
  }

  // ----- "Drop tracking query parameters (utm_*, ...)" -----

  /** What the documentation lists, a star standing for any text. */
  predicate DocumentedTracking(name: string) {
    "utm_" <= name || name == "fbclid" || name == "gclid" || name == "ref" || name == "mc_cid" || name == "mc_eid"
  }

  /** The `utm_` names the code knows. */
  predicate KnownUtm(name: string) {
    name == "utm_source" || name == "utm_medium" || name == "utm_campaign" || name == "utm_term" || name == "utm_content"
  }

  lemma TrackingIsDocumented(name: string)
    ensures IsTracking(name) <==> DocumentedTracking(name) && ("utm_" <= name ==> KnownUtm(name))
  {
    UtmPrefix(name);
  }

  lemma UtmPrefix(name: string)
    ensures KnownUtm(name) ==> "utm_" <= name
    ensures "utm_" <= name ==> |name| >= 4 && name[0] == 'u'
  {
    if name == "utm_source" {
      assert "utm_" <= "utm_source";
    } else if name == "utm_medium" {
      assert "utm_" <= "utm_medium";
    } else if name == "utm_campaign" {
      assert "utm_" <= "utm_campaign";
    } else if name == "utm_term" {
      assert "utm_" <= "utm_term";
    } else if name == "utm_content" {
      assert "utm_" <= "utm_content";
    }
    if "utm_" <= name {
      assert name[..4] == "utm_";
    }
  }

  function DropDocumented(pairs: seq<Pair>): seq<Pair> {
    if pairs == [] then []
    else (if DocumentedTracking(pairs[0].name) then [] else [pairs[0]]) + DropDocumented(pairs[1..])
  }

  lemma {:induction false} DocumentedDropsMore(pairs: seq<Pair>)
    ensures |DropDocumented(pairs)| <= |DropTracking(pairs)|
  {
    hide IsTracking, DocumentedTracking, KnownUtm;
    if pairs != [] {
      TrackingIsDocumented(pairs[0].name);
      DocumentedDropsMore(pairs[1..]);
    }
  }

  /** The code drops what is documented exactly when every `utm_` name present is one of the five it lists. */
  lemma {:induction false} DocumentedRuleExactly(pairs: seq<Pair>)
    ensures DropTracking(pairs) == DropDocumented(pairs)
       <==> forall i :: 0 <= i < |pairs| ==> "utm_" <= pairs[i].name ==> KnownUtm(pairs[i].name)
  {
    hide IsTracking, DocumentedTracking, KnownUtm;
    if pairs != [] {
      var head, rest := pairs[0], pairs[1..];
      DocumentedRuleExactly(rest);
      DocumentedDropsMore(rest);
      TrackingIsDocumented(head.name);
      UtmIsDocumented(head.name);
      assert forall i :: 0 <= i < |rest| ==> rest[i] == pairs[i + 1];
      if !IsTracking(head.name) && !DocumentedTracking(head.name) {
        assert DropTracking(pairs) == [head] + DropTracking(rest);
        assert DropDocumented(pairs) == [head] + DropDocumented(rest);
        assert DropTracking(pairs)[1..] == DropTracking(rest) && DropDocumented(pairs)[1..] == DropDocumented(rest);
      } else if !IsTracking(head.name) {
        assert |DropTracking(pairs)| == 1 + |DropTracking(rest)|;
        assert DropDocumented(pairs) == DropDocumented(rest);
        assert !KnownUtm(pairs[0].name);
      } else {
        assert DropTracking(pairs) == DropTracking(rest) && DropDocumented(pairs) == DropDocumented(rest);
      }
    }
  }

  lemma UtmIsDocumented(name: string)
    ensures "utm_" <= name ==> DocumentedTracking(name)
  {
  }
}
