/** The reflection rounds of a deep-research run, against the follow-ups that the estimator counts. */
module DepthRounds {
  import opened Common
  import opened Arithmetic
  import opened Concurrency
  import opened Budget
  import opened BudgetLaws

  /** The limit a round passes on, from the limit of sub-queries and the number of texts seen so far. */
  function Asked(maxSubQueries: nat, seen: nat): nat {
    var others := if seen >= 1 then seen - 1 else 0;
    var remaining := if maxSubQueries >= others then maxSubQueries - others else 0;
    if remaining < 1 then 1 else if remaining > 4 then 4 else remaining
  }

  /** What a round came to: how many follow-ups were run, and how many of their texts were new. */
  datatype Round = Round(ran: nat, novel: nat)

  /** Every round runs at most what it asked for; its new texts count as seen from then on. */
  predicate MayHappen(maxSubQueries: nat, seen: nat, rounds: seq<Round>)
    decreases rounds
  {
    rounds == [] ||
    (rounds[0].ran <= Asked(maxSubQueries, seen) && rounds[0].novel <= rounds[0].ran
     && MayHappen(maxSubQueries, seen + rounds[0].novel, rounds[1..]))
  }

  function TotalRan(rounds: seq<Round>): nat {
    if rounds == [] then 0 else rounds[0].ran + TotalRan(rounds[1..])
  }

  lemma AskedWithinRound(i: Input, seen: nat)
    ensures 1 <= Asked(i.maxSubQueries, seen) <= PerRound(i)
    ensures seen <= 1 ==> Asked(i.maxSubQueries, seen) == PerRound(i)
  {
  }

  lemma {:induction false} RoundsWithinCount(i: Input, seen: nat, rounds: seq<Round>)
    requires MayHappen(i.maxSubQueries, seen, rounds)
    ensures TotalRan(rounds) <= |rounds| * PerRound(i)
    decreases rounds
  {
    hide Asked, PerRound;
    if rounds != [] {
      AskedWithinRound(i, seen);
      RoundsWithinCount(i, seen + rounds[0].novel, rounds[1..]);
      OneMore(|rounds| - 1, PerRound(i));
    }
  }

  /** Work and waves with `runs` follow-ups, as exact sums saturated once. */
  function WorkWith(i: Input, runs: nat): nat {
    Sat(Times((if i.maxSubQueries == 0 then 1 else i.maxSubQueries) + runs, UnitWork(i)))
  }

  function WavesWith(i: Input, runs: nat): nat {
    Sat(Times(Waves(i) + runs, ContendedUnit(i)))
  }

  lemma EstimatesCountFollowUps(i: Input)
    ensures WorkEstimate(i) == WorkWith(i, FollowUps(i)) && WavesWall(i) == WavesWith(i, FollowUps(i))
  {
    hide UnitWork, UnitWall, Waves, PerRound, Factor, ScaleSeconds, FollowUps;
    RoundsAreFollowUps(i);
    TotalIsExact(SubQueries(i), FollowUps(i), UnitWork(i));
    TotalIsExact(Waves(i), FollowUps(i), ContendedUnit(i));
  }

  lemma MoreRunsCostMore(i: Input, few: nat, many: nat)
    requires few <= many
    ensures WorkWith(i, few) <= WorkWith(i, many) && WavesWith(i, few) <= WavesWith(i, many)
  {
    hide UnitWork, Waves, ContendedUnit;
    var n := if i.maxSubQueries == 0 then 1 else i.maxSubQueries;
    MulMonotone(n + few, n + many, UnitWork(i));
    MulMonotone(Waves(i) + few, Waves(i) + many, ContendedUnit(i));
  }

  /** Whatever the rounds find, both estimates cover every follow-up that is run. */
  lemma EstimatesCoverEveryHistory(i: Input, seen: nat, rounds: seq<Round>)
    requires MayHappen(i.maxSubQueries, seen, rounds) && |rounds| <= i.depth
    ensures WorkWith(i, TotalRan(rounds)) <= WorkEstimate(i)
    ensures WavesWith(i, TotalRan(rounds)) <= WavesWall(i)
  {
    RoundsWithinCount(i, seen, rounds);
    MulMonotone(|rounds|, i.depth, PerRound(i));
    EstimatesCountFollowUps(i);
    hide WorkWith, WavesWith, MayHappen, PerRound;
    MoreRunsCostMore(i, TotalRan(rounds), FollowUps(i));
  }

  /** `n` rounds in which each follow-up is run but only `novel` new texts arise a round. */
  function Repeated(n: nat, ran: nat, novel: nat): seq<Round> {
    seq(n, _ => Round(ran, novel))
  }

  lemma {:induction false} RepeatedRounds(maxSubQueries: nat, seen: nat, n: nat, ran: nat, novel: nat)
    requires novel <= ran
    requires forall m: nat :: m < n ==> ran <= Asked(maxSubQueries, seen + Times(m, novel))
    ensures MayHappen(maxSubQueries, seen, Repeated(n, ran, novel)) && TotalRan(Repeated(n, ran, novel)) == Times(n, ran)
    decreases n
  {
    hide Asked;
    if n > 0 {
      var rest := Repeated(n - 1, ran, novel);
      assert Repeated(n, ran, novel)[1..] == rest && Repeated(n, ran, novel)[0] == Round(ran, novel);
      forall m: nat | m < n - 1 ensures ran <= Asked(maxSubQueries, seen + novel + Times(m, novel)) {
        OneMore(m, novel);
        assert ran <= Asked(maxSubQueries, seen + Times(m + 1, novel));
      }
      assert ran <= Asked(maxSubQueries, seen + Times(0, novel));
      RepeatedRounds(maxSubQueries, seen + novel, n - 1, ran, novel);
      OneMore(n - 1, ran);
    }
  }

  /** And some history reaches both estimates: the original query alone at first, and follow-ups with no new text. */
  lemma EstimatesAreReached(i: Input) returns (rounds: seq<Round>)
    ensures MayHappen(i.maxSubQueries, 1, rounds) && |rounds| == i.depth
    ensures WorkWith(i, TotalRan(rounds)) == WorkEstimate(i)
    ensures WavesWith(i, TotalRan(rounds)) == WavesWall(i)
  {
    rounds := Repeated(i.depth, PerRound(i), 0);
    AskedWithinRound(i, 1);
    hide Asked, PerRound, WorkWith, WavesWith;
    forall m: nat | m < i.depth ensures PerRound(i) <= Asked(i.maxSubQueries, 1 + Times(m, 0)) {
      assert Times(m, 0) == 0;
    }
    RepeatedRounds(i.maxSubQueries, 1, i.depth, PerRound(i), 0);
    EstimatesCountFollowUps(i);
  }

  // ----- When every follow-up is a new text -----

  /** One to four follow-ups a round. */
  function RoundLimit(maxSubQueries: nat): nat {
    if maxSubQueries < 1 then 1 else if maxSubQueries > 4 then 4 else maxSubQueries
  }

  predicate AllNovel(rounds: seq<Round>) {
    forall k :: 0 <= k < |rounds| ==> rounds[k].novel == rounds[k].ran
  }

  lemma AskedInFullExactly(i: Input, seen: nat)
    requires seen >= 1
    ensures Asked(i.maxSubQueries, seen) == PerRound(i) <==> PerRound(i) == 1 || PerRound(i) + seen - 1 <= i.maxSubQueries
  {
  }

  /** A full count of all-new follow-ups leaves no round short, so also not the last. */
  lemma {:induction false} FullCountIsFullRounds(i: Input, seen: nat, rounds: seq<Round>)
    requires seen >= 1 && MayHappen(i.maxSubQueries, seen, rounds) && AllNovel(rounds)
    requires TotalRan(rounds) == Times(|rounds|, PerRound(i)) && rounds != []
    ensures PerRound(i) == 1 || Times(|rounds|, PerRound(i)) + seen - 1 <= i.maxSubQueries
    decreases rounds
  {
    var rest := rounds[1..];
    assert forall k :: 0 <= k < |rest| ==> rest[k] == rounds[k + 1];
    AskedWithinRound(i, seen);
    AskedInFullExactly(i, seen);
    hide Asked, PerRound;
    RoundsWithinCount(i, seen + rounds[0].novel, rest);
    OneMore(|rest|, PerRound(i));
    assert rounds[0].ran == PerRound(i);
    if rest != [] {
      FullCountIsFullRounds(i, seen + rounds[0].novel, rest);
    } else {
      assert Times(1, PerRound(i)) == PerRound(i);
    }
  }

  /**
   * When every follow-up is a new text, the count is reached if and only if there are no rounds, or one
   * follow-up a round, or the limit of sub-queries leaves room for all of them next to the texts seen at
   * the start.
   */
  lemma NovelCountIsReachedExactly(i: Input, seen: nat)
    requires seen >= 1
    ensures (exists rounds :: MayHappen(i.maxSubQueries, seen, rounds) && AllNovel(rounds) && |rounds| == i.depth
               && TotalRan(rounds) == Times(i.depth, RoundLimit(i.maxSubQueries)))
         == (i.depth == 0 || i.maxSubQueries <= 1 || Times(i.depth, RoundLimit(i.maxSubQueries)) + seen - 1 <= i.maxSubQueries)
  {
    assert PerRound(i) == RoundLimit(i.maxSubQueries);
    assert PerRound(i) == 1 <==> i.maxSubQueries <= 1;
    var p := PerRound(i);
    if i.depth == 0 || p == 1 || Times(i.depth, p) + seen - 1 <= i.maxSubQueries {
      forall m: nat | m < i.depth ensures p <= Asked(i.maxSubQueries, seen + Times(m, p)) {
        AskedWithinRound(i, seen + Times(m, p));
        AskedInFullExactly(i, seen + Times(m, p));
        OneMore(m, p);
        MulMonotone(m + 1, i.depth, p);
      }
      RepeatedRounds(i.maxSubQueries, seen, i.depth, p, p);
    }
    hide Asked, PerRound, Times;
    if rounds :| MayHappen(i.maxSubQueries, seen, rounds) && AllNovel(rounds) && |rounds| == i.depth
                 && TotalRan(rounds) == Times(i.depth, p) {
      if i.depth > 0 {
        FullCountIsFullRounds(i, seen, rounds);
      }
    }
  }
}
