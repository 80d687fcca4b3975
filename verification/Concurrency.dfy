/** The sizing policy for Chrome processes and query permits. */
module Concurrency {
  import opened Common

  const MAX_CONCURRENCY := 20

  function ClampConcurrency(requested: nat): nat {
    Min(Max(requested, 1), MAX_CONCURRENCY)
  }

  function EffectiveConcurrency(parallelism: nat): nat {
    ClampConcurrency(Max(parallelism, 1))
  }

  function ChromeProcessBudget(parallelism: nat): nat {
    EffectiveConcurrency(parallelism)
  }

  /** Chrome processes of a content-fetch pool. */
  function ChromePoolSize(parallelism: nat, urlCount: nat, nestedInQueryFanout: bool): nat {
    if urlCount == 0 then 0
    else if nestedInQueryFanout then 1
    else Max(Min(ChromeProcessBudget(parallelism), urlCount), 1)
  }

  datatype DualVerticalMode = Auto | ForceShared | ForceDual

  predicate PreferDualVerticalChrome(parallelism: nat, mode: DualVerticalMode, sharedSession: bool) {
    !sharedSession &&
    match mode
    case ForceShared => false
    case ForceDual => true
    case Auto => ChromeProcessBudget(parallelism) >= 2
  }

  function ChromeSlotsPerQuery(includesWeb: bool, includesNews: bool, dual: bool): nat {
    if dual && includesWeb && includesNews then 2 else 1
  }

  /** What one query task asks of the query semaphore. */
  function Slots(parallelism: nat, mode: DualVerticalMode, sharedSession: bool, web: bool, news: bool): nat {
    ChromeSlotsPerQuery(web, news, PreferDualVerticalChrome(parallelism, mode, sharedSession))
  }

  /**
   * A task asks for more permits than exist in one case only: two forced Chrome processes under a
   * parallelism of at most 1. In automatic mode the request always fits.
   */
  lemma SlotsFitExactly(parallelism: nat, mode: DualVerticalMode, sharedSession: bool, web: bool, news: bool)
    ensures 1 <= Slots(parallelism, mode, sharedSession, web, news) <= 2
    ensures Slots(parallelism, mode, sharedSession, web, news) <= EffectiveConcurrency(parallelism)
       <==> !(mode == ForceDual && !sharedSession && web && news && parallelism <= 1)
  {
  }

  /** A requested parallelism counts as it is within 1 to 20, and as the nearer end of that range outside. */
  lemma EffectiveIsNearest(parallelism: nat, n: nat)
    requires 1 <= n <= 20
    ensures 1 <= EffectiveConcurrency(parallelism) <= 20
    ensures 1 <= parallelism <= 20 ==> EffectiveConcurrency(parallelism) == parallelism
    ensures parallelism < 1 ==> EffectiveConcurrency(parallelism) <= n
    ensures parallelism > 20 ==> n <= EffectiveConcurrency(parallelism)
  {
  }

  /** When exactly a query pays for two processes. */
  lemma TwoSlotsExactly(parallelism: nat, mode: DualVerticalMode, sharedSession: bool, web: bool, news: bool)
    ensures Slots(parallelism, mode, sharedSession, web, news) == 2
       <==> web && news && !sharedSession && (mode == ForceDual || (mode == Auto && parallelism >= 2))
    ensures Slots(parallelism, mode, sharedSession, web, news) != 2 ==> Slots(parallelism, mode, sharedSession, web, news) == 1
  {
  }

  /** A nested pool has one browser; any other as many as there are pages, within the process budget. */
  lemma PoolIsLargestUseful(parallelism: nat, urlCount: nat, nested: bool, n: nat)
    ensures n <= ChromePoolSize(parallelism, urlCount, nested)
       <==> n <= urlCount && n <= (if nested then 1 else if parallelism < 1 then 1 else if parallelism > 20 then 20 else parallelism)
  {
  }
}
