/** The pool of twelve browser identities and its rotation after a block. */
module IdentityPool {
  import opened Common

  datatype Family = Chrome | Edge | Firefox | Safari
  datatype Platform = Windows | MacOS | Linux
  datatype Profile = Profile(family: Family, platform: Platform)

  const CATALOG: seq<Profile> := [
    Profile(Chrome, Windows), Profile(Chrome, MacOS), Profile(Chrome, Linux),
    Profile(Edge, Windows), Profile(Edge, MacOS), Profile(Edge, Linux),
    Profile(Firefox, Windows), Profile(Firefox, MacOS), Profile(Firefox, Linux),
    Profile(Safari, Windows), Profile(Safari, MacOS), Profile(Safari, Linux)]

  const U32_MAX: nat := 0xFFFF_FFFF

  datatype State = State(level: nat, current: nat)

  predicate Valid(p: State) {
    p.level <= U32_MAX && p.current < |CATALOG|
  }

  /** The filter of each rotation level; the second one does not look at the family. */
  predicate Eligible(level: nat, current: nat, i: nat)
    requires current < |CATALOG| && i < |CATALOG|
  {
    var now, then' := CATALOG[current], CATALOG[i];
    i != current &&
    if level == 1 then then'.family == now.family
    else if level == 2 then then'.platform == now.platform
    else then'.family != now.family && then'.platform != now.platform
  }

  function CandidatesFrom(level: nat, current: nat, k: nat): (cs: seq<nat>)
    requires current < |CATALOG| && k <= |CATALOG|
    ensures forall c :: c in cs <==> k <= c < |CATALOG| && Eligible(level, current, c)
    decreases |CATALOG| - k
  {
    if k == |CATALOG| then []
    else if Eligible(level, current, k) then [k] + CandidatesFrom(level, current, k + 1)
    else CandidatesFrom(level, current, k + 1)
  }

  function Candidates(level: nat, current: nat): seq<nat>
    requires current < |CATALOG|
  {
    CandidatesFrom(level, current, 0)
  }

  /** Any index from level 4 on, and as a fallback when a filter leaves nothing. */
  predicate MayPick(level: nat, current: nat, next: nat)
    requires current < |CATALOG|
  {
    if level >= 4 || Candidates(level, current) == [] then next < |CATALOG|
    else next in Candidates(level, current)
  }

  function NextLevel(level: nat): nat {
    Min(level + 1, U32_MAX)
  }

  predicate Rotates(p: State, p': State)
    requires p.current < |CATALOG|
  {
    p'.level == NextLevel(p.level) && MayPick(p'.level, p.current, p'.current)
  }

  function AtLevelZero(p: State): State {
    p.(level := 0)
  }

  function Pinned(p: State, index: nat): State {
    if index < |CATALOG| then State(0, index) else p
  }

  /** The random generator is any choice within the range it is asked for. */
  class Pool {
    var level: nat
    var current: nat

    function Now(): State
      reads this
    {
      State(level, current)
    }

    constructor ()
      ensures Now() == State(0, 0)
    {
      level, current := 0, 0;
    }

    method Reset()
      modifies this
      ensures Now() == AtLevelZero(old(Now()))
      ensures level == 0 && current == old(current)
    {
      level := 0;
    }

    method PinTo(index: nat)
      modifies this
      ensures Now() == Pinned(old(Now()), index)
      ensures index < |CATALOG| ==> level == 0 && current == index
      ensures index >= |CATALOG| ==> level == old(level) && current == old(current)
    {
      if index < |CATALOG| {
        current := index;
        level := 0;
      }
    }

    method PickRandom() returns (i: nat)
      ensures i < |CATALOG|
    {
      i :| i < |CATALOG|;
    }

    method ChooseFrom(candidates: seq<nat>) returns (i: nat)
      ensures if candidates == [] then i < |CATALOG| else i in candidates
    {
      if candidates == [] {
        i := PickRandom();
      } else {
        assert candidates[0] in candidates;
        i :| i in candidates;
      }
    }

    method RotateOnBlock() returns (active: Profile)
      requires Valid(Now())
      modifies this
      ensures Valid(Now()) && Rotates(old(Now()), Now())
      ensures active == CATALOG[current]
    {
      level := if level < U32_MAX then level + 1 else U32_MAX;
      var next := current;
      if level == 1 || level == 2 || level == 3 {
        next := ChooseFrom(Candidates(level, current));
      } else if level >= 4 {
        next := PickRandom();
      }
      current := next;
      active := CATALOG[current];
    }

    method FindIndex(family: Family, platform: Platform) returns (index: Option<nat>)
      ensures index == IndexOfProfile(Profile(family, platform), 0)
    {
      var i := 0;
      while i < |CATALOG|
        invariant i <= |CATALOG|
        invariant IndexOfProfile(Profile(family, platform), 0) == IndexOfProfile(Profile(family, platform), i)
      {
        if CATALOG[i].family == family && CATALOG[i].platform == platform {
          return Some(i);
        }
        i := i + 1;
      }
      index := None;
    }
  }

  /** The first catalog index from `k` on that holds the profile. */
  function IndexOfProfile(p: Profile, k: nat): (r: Option<nat>)
    requires k <= |CATALOG|
    ensures r.Some? ==> k <= r.value < |CATALOG| && CATALOG[r.value] == p
    decreases |CATALOG| - k
  {
    if k == |CATALOG| then None else if CATALOG[k] == p then Some(k) else IndexOfProfile(p, k + 1)
  }

  // ----- The catalog -----

  /** Every pair of family and platform occurs exactly once. */
  lemma CatalogIsInjective(i: nat, j: nat)
    requires i < |CATALOG| && j < |CATALOG| && CATALOG[i] == CATALOG[j]
    ensures i == j
  {
  }

  function FamilyRow(f: Family): nat {
    match f case Chrome => 0 case Edge => 1 case Firefox => 2 case Safari => 3
  }

  function PlatformColumn(p: Platform): nat {
    match p case Windows => 0 case MacOS => 1 case Linux => 2
  }

  lemma CatalogIsComplete(p: Profile)
    ensures 3 * FamilyRow(p.family) + PlatformColumn(p.platform) < |CATALOG|
    ensures CATALOG[3 * FamilyRow(p.family) + PlatformColumn(p.platform)] == p
  {
  }

  lemma {:induction false} FoundIfPresent(p: Profile, k: nat, i: nat)
    requires k <= i < |CATALOG| && CATALOG[i] == p
    ensures IndexOfProfile(p, k).Some?
    decreases i - k
  {
    if CATALOG[k] != p {
      FoundIfPresent(p, k + 1, i);
    }
  }

  /** Looking a profile up and pinning the result always selects that very profile at level 0. */
  lemma PinningFindsEveryProfile(s: State, p: Profile)
    ensures IndexOfProfile(p, 0).Some?
    ensures var s' := Pinned(s, IndexOfProfile(p, 0).value); s'.level == 0 && Valid(s') && CATALOG[s'.current] == p
  {
    CatalogIsComplete(p);
    FoundIfPresent(p, 0, 3 * FamilyRow(p.family) + PlatformColumn(p.platform));
  }

  // ----- What each rotation changes -----

  lemma {:induction false} SomebodyIsEligible(level: nat, current: nat)
    requires current < |CATALOG| && 1 <= level <= 3
    ensures exists c: nat :: c < |CATALOG| && Eligible(level, current, c)
  {
    var now := CATALOG[current];
    var family := if now.family == Chrome then Edge else Chrome;
    var platform := if now.platform == Windows then MacOS else Windows;
    var wanted := if level == 1 then Profile(now.family, platform)
                  else if level == 2 then Profile(family, now.platform) else Profile(family, platform);
    CatalogIsComplete(wanted);
    assert Eligible(level, current, 3 * FamilyRow(wanted.family) + PlatformColumn(wanted.platform));
  }

  /** The random fallback of the filtered levels is never taken. */
  lemma FallbackIsUnreachable(level: nat, current: nat)
    requires current < |CATALOG| && 1 <= level <= 3
    ensures Candidates(level, current) != []
  {
    SomebodyIsEligible(level, current);
    var c: nat :| c < |CATALOG| && Eligible(level, current, c);
    assert c in Candidates(level, current);
  }

  /**
   * The first rotation changes only the platform, the second only the family (the filter looks at
   * the platform alone; the catalog does the rest), the third both.
   */
  lemma WhatRotationChanges(p: State, p': State)
    requires Valid(p) && Rotates(p, p')
    ensures Valid(p')
    ensures p'.level <= 3 ==> p'.current != p.current
    ensures p'.level <= 3 ==> (CATALOG[p'.current].family == CATALOG[p.current].family <==> p'.level == 1)
    ensures p'.level <= 3 ==> (CATALOG[p'.current].platform == CATALOG[p.current].platform <==> p'.level == 2)
  {
    if p'.level <= 3 {
      FallbackIsUnreachable(p'.level, p.current);
      assert Eligible(p'.level, p.current, p'.current);
      if CATALOG[p'.current] == CATALOG[p.current] {
        CatalogIsInjective(p'.current, p.current);
      }
    }
  }

  /** Which identities a rotation may lead to: those with the same family, platform or neither, then any. */
  predicate MayFollow(rotation: nat, now: Profile, next: Profile) {
    match rotation
    case 1 => next.family == now.family && next.platform != now.platform
    case 2 => next.platform == now.platform && next.family != now.family
    case 3 => next.family != now.family && next.platform != now.platform
    case _ => true
  }

  lemma RotationMayPickExactly(p: State, p': State)
    requires Valid(p) && p'.current < |CATALOG|
    ensures Rotates(p, p') <==>
      && p'.level == (if p.level < 0xFFFF_FFFF then p.level + 1 else p.level)
      && MayFollow(p'.level, CATALOG[p.current], CATALOG[p'.current])
  {
    if 1 <= p'.level <= 3 {
      FallbackIsUnreachable(p'.level, p.current);
      if CATALOG[p'.current] == CATALOG[p.current] {
        CatalogIsInjective(p'.current, p.current);
      }
    }
  }

  // ----- Runs -----

  datatype Move = Rotate | ResetLevel | Pin(index: nat)

  predicate Moves(p: State, m: Move, p': State)
    requires p.current < |CATALOG|
  {
    match m
    case Rotate => Rotates(p, p')
    case ResetLevel => p' == AtLevelZero(p)
    case Pin(i) => p' == Pinned(p, i)
  }

  predicate IsRun(states: seq<State>, moves: seq<Move>) {
    && |states| == |moves| + 1
    && states[0] == State(0, 0)
    && forall k :: 0 <= k < |moves| ==> states[k].current < |CATALOG| && Moves(states[k], moves[k], states[k + 1])
  }

  /** How many rotations a run ends with since the level was last set back. */
  function Streak(moves: seq<Move>): nat {
    if moves == [] then 0
    else match moves[|moves| - 1]
      case Rotate => Streak(moves[..|moves| - 1]) + 1
      case ResetLevel => 0
      case Pin(i) => if i < |CATALOG| then 0 else Streak(moves[..|moves| - 1])
  }

  /** Over every run the index stays in the catalog and the level counts the rotations of the streak. */
  lemma {:induction false} RunsStayInTheCatalog(states: seq<State>, moves: seq<Move>)
    requires IsRun(states, moves)
    ensures Valid(states[|moves|])
    ensures states[|moves|].level == Min(Streak(moves), U32_MAX)
  {
    hide MayPick;
    if moves != [] {
      var n := |moves| - 1;
      RunsStayInTheCatalog(states[..|moves|], moves[..n]);
      if moves[n].Rotate? {
        WhatRotationChanges(states[n], states[n + 1]);
      }
    }
  }

  /** After a level reset the first three identities are pairwise different. */
  lemma FirstThreeAreDistinct(p: State, p1: State, p2: State)
    requires Valid(p) && p.level == 0 && Rotates(p, p1) && p1.current < |CATALOG| && Rotates(p1, p2)
    ensures p.current != p1.current && p1.current != p2.current && p.current != p2.current
    ensures CATALOG[p1.current].family == CATALOG[p.current].family != CATALOG[p2.current].family
    ensures CATALOG[p2.current].platform == CATALOG[p1.current].platform != CATALOG[p.current].platform
  {
    WhatRotationChanges(p, p1);
    WhatRotationChanges(p1, p2);
  }

  /** The third rotation can come back to the identity blocked first. */
  lemma ThirdRotationMayReturn()
    ensures var p, p1, p2, p3 := State(0, 0), State(1, 1), State(2, 4), State(3, 0);
      Rotates(p, p1) && Rotates(p1, p2) && Rotates(p2, p3) && p3.current == p.current
  {
    assert Eligible(1, 0, 1) && Eligible(2, 1, 4) && Eligible(3, 4, 0);
    assert 1 in Candidates(1, 0) && 4 in Candidates(2, 1) && 0 in Candidates(3, 4);
  }
}
