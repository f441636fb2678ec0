/** Matchmaking (lolqueue-master/match.go): the exhaustive search for the largest group of
    queued players in which everybody's criteria are met. */
module Matchmaking {
  import opened Positions
  import opened Ranks
  import opened Subsequences
  import opened Wrappers

  datatype Criteria = Criteria(
    region: string,
    myPositions: seq<Position>,
    minPlayers: int,
    minRank: Rank,
    maxRank: Rank)

  /** Everything the matchmaker reads of a player, as a value. */
  datatype Profile = Profile(region: string, rank: Rank, criteria: Criteria)

  class Player {
    const summonerName: string
    const summonerID: int
    const region: string
    const rank: Rank
    var criteria: Criteria

    constructor (summonerName: string, summonerID: int, region: string, rank: Rank, criteria: Criteria)
      ensures this.summonerName == summonerName && this.summonerID == summonerID
      ensures this.region == region && this.rank == rank && this.criteria == criteria
    {
      this.summonerName, this.summonerID := summonerName, summonerID;
      this.region, this.rank, this.criteria := region, rank, criteria;
    }

    function Snapshot(): Profile
      reads this
    {
      Profile(region, rank, criteria)
    }

    function Key(): string {
      ToLower(summonerName + "-" + region)
    }
  }

  class Match {
    var id: int
    const invited: seq<Player>
    var accepted: map<string, bool>
    const positions: seq<Position>

    constructor (invited: seq<Player>, positions: seq<Position>)
      ensures id == -1 && this.invited == invited && accepted == map[] && this.positions == positions
    {
      this.id, this.invited, this.accepted, this.positions := -1, invited, map[], positions;
    }
  }

  // ---------- What a viable group is ----------

  /** One member of a group, judged by somebody's criteria. */
  predicate Accepts(c: Criteria, region: string, rank: Rank) {
    c.region == region && RankVal(c.minRank) <= RankVal(rank) <= RankVal(c.maxRank)
  }

  /** One player's criteria, judged against every member of the group, that player included. */
  ghost predicate Satisfied(c: Criteria, group: seq<Profile>) {
    && (forall p <- group :: Accepts(c, p.region, p.rank))
    && c.minPlayers <= |group|
  }

  ghost function Wishes(group: seq<Profile>): (w: seq<seq<Position>>)
    ensures |w| == |group|
  {
    seq(|group|, k requires 0 <= k < |group| => group[k].criteria.myPositions)
  }

  /** Two to five players who can all be given a position and accept each other. */
  ghost predicate Viable(group: seq<Profile>) {
    && 2 <= |group| <= 5
    && Solvable([], Wishes(group))
    && forall p <- group :: Satisfied(p.criteria, group)
  }

  /** In a viable group everybody is of the region and between the ranks that everybody asks for, and nobody wants more
      players. */
  lemma MembersAcceptEachOther(group: seq<Profile>, i: nat, j: nat)
    requires Viable(group) && i < |group| && j < |group|
    ensures group[i].region == group[j].criteria.region
    ensures RankVal(group[j].criteria.minRank) <= RankVal(group[i].rank) <= RankVal(group[j].criteria.maxRank)
    ensures group[j].criteria.minPlayers <= |group|
  {
    assert group[i] in group && group[j] in group;
  }

  // ---------- The search rewrites position lists in place ----------

  function CollapsedCriteria(c: Criteria): Criteria {
    c.(myPositions := Collapse(c.myPositions))
  }

  function CollapsedProfile(p: Profile): Profile {
    p.(criteria := CollapsedCriteria(p.criteria))
  }

  ghost predicate Drifted(before: seq<Profile>, after: seq<Profile>) {
    && |before| == |after|
    && forall k :: 0 <= k < |before| ==> after[k] == before[k] || after[k] == CollapsedProfile(before[k])
  }

  /** A group is viable before the search exactly when it is viable at any point of the search. */
  lemma DriftKeepsViability(before: seq<Profile>, after: seq<Profile>)
    requires Drifted(before, after)
    ensures Viable(before) <==> Viable(after)
  {
    CollapseKeepsSolvability(Wishes(before), Wishes(after));
    forall k | 0 <= k < |before|
      ensures Satisfied(before[k].criteria, before) <==> Satisfied(after[k].criteria, after)
    {
      assert Satisfied(before[k].criteria, before) <==> Satisfied(after[k].criteria, before);
      SatisfiedDrifts(after[k].criteria, before, after);
      SatisfiedDrifts(after[k].criteria, after, before);
    }
  }

  lemma SatisfiedDrifts(c: Criteria, group: seq<Profile>, other: seq<Profile>)
    requires |group| == |other|
    requires forall k :: 0 <= k < |group| ==> group[k].region == other[k].region && group[k].rank == other[k].rank
    ensures Satisfied(c, group) ==> Satisfied(c, other)
  {
    if Satisfied(c, group) {
      forall p | p in other ensures Accepts(c, p.region, p.rank) {
        var k :| 0 <= k < |other| && other[k] == p;
        assert group[k] in group;
      }
    }
  }

  /** The profiles a group had when the search began. */
  ghost function Profiles(p0: map<Player, Profile>, group: seq<Player>): (r: seq<Profile>)
    requires Known(p0, group)
    ensures |r| == |group|
  {
    seq(|group|, k requires 0 <= k < |group| => p0[group[k]])
  }

  /** So far each player's profile is the one at the start of the search, or that one collapsed. */
  ghost predicate Tracks(p0: map<Player, Profile>)
    reads p0.Keys
  {
    forall q <- p0.Keys :: q.Snapshot() == p0[q] || q.Snapshot() == CollapsedProfile(p0[q])
  }

  /** Every player of the group takes part in the search. */
  ghost predicate Known(p0: map<Player, Profile>, group: seq<Player>) {
    forall q <- group :: q in p0
  }

  /** The profiles of a group as they stand now. */
  ghost function Now(group: seq<Player>): (r: seq<Profile>)
    reads group
    ensures |r| == |group|
  {
    seq(|group|, k requires 0 <= k < |group| reads group => group[k].Snapshot())
  }

  // ---------- The checks and the search ----------

  method CriteriaSatisfied(c: Criteria, invited: seq<Player>) returns (ok: bool)
    ensures ok <==> Satisfied(c, Now(invited))
  {
    ghost var group := Now(invited);
    for k := 0 to |invited|
      invariant forall j :: 0 <= j < k ==> Accepts(c, group[j].region, group[j].rank)
    {
      var q := invited[k];
      assert group[k] in group && group[k].region == q.region && group[k].rank == q.rank;
      if c.region != q.region {
        return false;
      }
      var rankVal := Val(q.rank);
      var low := Val(c.minRank);
      var high := Val(c.maxRank);
      if rankVal < low || rankVal > high {
        return false;
      }
    }
    return c.minPlayers <= |invited|;
  }

  method CollapseWishes(p: Player)
    modifies p
    ensures p.criteria == CollapsedCriteria(old(p.criteria))
  {
    var wanted := p.criteria.myPositions;
    for j := 0 to |wanted|
      invariant p.criteria == old(p.criteria)
      invariant |wanted| > 1 ==> ANY !in wanted[..j]
    {
      if wanted[j] == ANY && |wanted| > 1 {
        p.criteria := p.criteria.(myPositions := [ANY]);
        break;
      }
    }
  }

  method DesiredPositions(players: seq<Player>) returns (desired: seq<seq<Position>>)
    modifies players
    ensures forall q <- players :: q.criteria == CollapsedCriteria(old(q.criteria))
    ensures desired == Wishes(Now(players))
  {
    desired := [];
    for k := 0 to |players|
      invariant |desired| == k
      invariant forall j :: 0 <= j < k ==> players[j].criteria == CollapsedCriteria(old(players[j].criteria))
      invariant forall q <- players :: q.criteria == old(q.criteria) || q.criteria == CollapsedCriteria(old(q.criteria))
      invariant forall j :: 0 <= j < k ==> desired[j] == players[j].criteria.myPositions
    {
      CollapseWishes(players[k]);
      desired := desired + [players[k].criteria.myPositions];
    }
  }

  method AllSatisfied(players: seq<Player>) returns (ok: bool)
    ensures ok <==> forall p <- Now(players) :: Satisfied(p.criteria, Now(players))
  {
    hide Satisfied;
    ghost var group := Now(players);
    for k := 0 to |players|
      invariant forall j :: 0 <= j < k ==> Satisfied(group[j].criteria, group)
    {
      assert group[k] in group && group[k].criteria == players[k].criteria;
      ok := CriteriaSatisfied(players[k].criteria, players);
      if !ok {
        return;
      }
    }
    ok := true;
  }

  lemma TrackedIsDrifted(p0: map<Player, Profile>, players: seq<Player>)
    requires Tracks(p0) && Known(p0, players)
    ensures Drifted(Profiles(p0, players), Now(players))
  {
    forall k | 0 <= k < |players|
      ensures Now(players)[k] == p0[players[k]] || Now(players)[k] == CollapsedProfile(p0[players[k]])
    {
      assert players[k] in players;
    }
  }

  /** Offers a match exactly when the group is viable. On the way, the position list of every
      player of a group of two to five is collapsed in place. */
  method IsViableMatch(players: seq<Player>, ghost p0: map<Player, Profile>) returns (m: Match?)
    requires Tracks(p0) && Known(p0, players)
    modifies players
    ensures Tracks(p0)
    ensures 2 <= |players| <= 5 ==> forall q <- players :: q.criteria == CollapsedCriteria(old(q.criteria))
    ensures !(2 <= |players| <= 5) ==> forall q <- players :: q.criteria == old(q.criteria)
    ensures m != null <==> Viable(Profiles(p0, players))
    ensures m != null ==> fresh(m) && m.id == -1 && m.invited == players && m.accepted == map[]
    ensures m != null ==> IsAssignment([], Wishes(Profiles(p0, players)), m.positions)
  {
    m := null;
    if |players| > 5 || |players| < 2 {
      return;
    }
    var desired := DesiredPositions(players);
    ghost var before, after := Profiles(p0, players), Now(players);
    assert Tracks(p0);
    TrackedIsDrifted(p0, players);
    var positions := ResolvePositions([], desired);
    if positions.None? || |positions.value| == 0 {
      assert !Viable(before) by { DriftKeepsViability(before, after); }
      return;
    }
    var ok := AllSatisfied(players);
    assert ok <==> Viable(before) by { DriftKeepsViability(before, after); }
    if !ok {
      return;
    }
    assert IsAssignment([], Wishes(before), positions.value) by {
      CollapsedAssignmentServes(Wishes(before), Wishes(after), positions.value);
    }
    m := new Match(players, positions.value);
  }

  /** The group is built from tracked players and is viable by their profiles at the start. */
  ghost predicate ViableExtension(p0: map<Player, Profile>, chosen: seq<Player>, candidates: seq<Player>,
                                  group: seq<Player>) {
    && Extends(chosen, candidates, group)
    && Known(p0, group)
    && Viable(Profiles(p0, group))
  }

  // ---------- The size of the largest viable group ----------

  /** 0 when no viable group keeps the chosen players and adds some of the candidates. */
  ghost function MaxSize(p0: map<Player, Profile>, chosen: seq<Player>, candidates: seq<Player>): nat
    requires Known(p0, chosen) && Known(p0, candidates)
    decreases |candidates|, |candidates| + 1
  {
    if |chosen| > 10 then 0
    else
      var longer := MaxOver(p0, chosen, candidates, |candidates|);
      if longer > 0 then longer else if Viable(Profiles(p0, chosen)) then |chosen| else 0
  }

  /** The same, with the first added candidate among the first `n`. */
  ghost function MaxOver(p0: map<Player, Profile>, chosen: seq<Player>, candidates: seq<Player>, n: nat): nat
    requires Known(p0, chosen) && Known(p0, candidates) && n <= |candidates|
    decreases |candidates|, n
  {
    if n == 0 then 0
    else
      var before := MaxOver(p0, chosen, candidates, n - 1);
      var here := MaxSize(p0, chosen + [candidates[n - 1]], candidates[n..]);
      if before < here then here else before
  }

  /** No viable group is larger, however many candidates it adds: neither giving up beyond ten
      players nor preferring longer groups over the chosen players alone loses anything. */
  lemma {:induction false} NoLargerGroup(p0: map<Player, Profile>, chosen: seq<Player>, candidates: seq<Player>,
                                         group: seq<Player>)
    requires Known(p0, chosen) && Known(p0, candidates)
    requires ViableExtension(p0, chosen, candidates, group)
    ensures |group| <= MaxSize(p0, chosen, candidates)
    decreases |candidates|
  {
    if group == chosen {
      MaxOverIsLonger(p0, chosen, candidates, |candidates|);
    } else {
      var i := ExtendsByFirst(chosen, candidates, group);
      NoLargerGroup(p0, chosen + [candidates[i]], candidates[i + 1..], group);
      MaxOverGrows(p0, chosen, candidates, i + 1, |candidates|);
    }
  }

  lemma {:induction false} MaxOverGrows(p0: map<Player, Profile>, chosen: seq<Player>, candidates: seq<Player>,
                                        m: nat, n: nat)
    requires Known(p0, chosen) && Known(p0, candidates) && m <= n <= |candidates|
    ensures MaxOver(p0, chosen, candidates, m) <= MaxOver(p0, chosen, candidates, n)
    decreases n
  {
    if m < n {
      MaxOverGrows(p0, chosen, candidates, m, n - 1);
    }
  }

  /** A positive size found by adding a candidate exceeds the number of chosen players. */
  lemma {:induction false} MaxOverIsLonger(p0: map<Player, Profile>, chosen: seq<Player>, candidates: seq<Player>,
                                           n: nat)
    requires Known(p0, chosen) && Known(p0, candidates) && n <= |candidates|
    ensures MaxOver(p0, chosen, candidates, n) == 0 || MaxOver(p0, chosen, candidates, n) > |chosen|
    decreases |candidates|, n
  {
    if n > 0 {
      MaxOverIsLonger(p0, chosen, candidates, n - 1);
      MaxOverIsLonger(p0, chosen + [candidates[n - 1]], candidates[n..], |candidates[n..]|);
    }
  }

  /** A positive size is reached by some viable group. */
  lemma {:induction false} SomeGroupReachesMax(p0: map<Player, Profile>, chosen: seq<Player>, candidates: seq<Player>)
    returns (group: seq<Player>)
    requires Known(p0, chosen) && Known(p0, candidates)
    requires MaxSize(p0, chosen, candidates) > 0
    ensures ViableExtension(p0, chosen, candidates, group) && |group| == MaxSize(p0, chosen, candidates)
    decreases |candidates|, |candidates| + 1
  {
    if MaxOver(p0, chosen, candidates, |candidates|) == 0 {
      group := chosen;
    } else {
      group := SomeGroupReachesMaxOver(p0, chosen, candidates, |candidates|);
    }
  }

  lemma {:induction false} SomeGroupReachesMaxOver(p0: map<Player, Profile>, chosen: seq<Player>,
                                                   candidates: seq<Player>, n: nat)
    returns (group: seq<Player>)
    requires Known(p0, chosen) && Known(p0, candidates) && n <= |candidates|
    requires MaxOver(p0, chosen, candidates, n) > 0
    ensures ViableExtension(p0, chosen, candidates, group) && |group| == MaxOver(p0, chosen, candidates, n)
    decreases |candidates|, n
  {
    if MaxOver(p0, chosen, candidates, n) == MaxOver(p0, chosen, candidates, n - 1) {
      group := SomeGroupReachesMaxOver(p0, chosen, candidates, n - 1);
    } else {
      group := SomeGroupReachesMax(p0, chosen + [candidates[n - 1]], candidates[n..]);
      ExtendsThroughCandidate(chosen, candidates, n - 1, group);
    }
  }

  // ---------- The search ----------

  /** Finds a viable group of the largest size, judged by the profiles the players had before the
      search began to rewrite their position lists. */
  method BestMatchFor(chosen: seq<Player>, candidates: seq<Player>, ghost p0: map<Player, Profile>)
    returns (best: Match?)
    requires Tracks(p0) && Known(p0, chosen) && Known(p0, candidates)
    modifies p0.Keys
    ensures Tracks(p0)
    ensures best == null <==> MaxSize(p0, chosen, candidates) == 0
    ensures best != null ==> fresh(best) && best.id == -1 && best.accepted == map[]
    ensures best != null ==> ViableExtension(p0, chosen, candidates, best.invited)
    ensures best != null ==> |best.invited| == MaxSize(p0, chosen, candidates)
    ensures best != null ==> IsAssignment([], Wishes(Profiles(p0, best.invited)), best.positions)
    decreases |candidates|
  {
    best := null;
    if |chosen| > 10 {
      return;
    }
    for i := 0 to |candidates|
      invariant Tracks(p0)
      invariant best == null <==> MaxOver(p0, chosen, candidates, i) == 0
      invariant best != null ==> ViableExtension(p0, chosen, candidates, best.invited)
      invariant best != null ==> |best.invited| == MaxOver(p0, chosen, candidates, i)
    {
      var consider := BestMatchFor(chosen + [candidates[i]], candidates[i + 1..], p0);
      if consider == null {
        continue;
      }
      ExtendsThroughCandidate(chosen, candidates, i, consider.invited);
      if best == null || |best.invited| < |consider.invited| {
        best := consider;
      }
    }
    if best == null {
      best := IsViableMatch(chosen, p0);
    } else {
      best := IsViableMatch(best.invited, p0);
    }
  }

  /** The profiles of all queued players. */
  ghost function SnapshotAll(players: seq<Player>): (p0: map<Player, Profile>)
    reads players
    ensures Known(p0, players) && Tracks(p0) && forall q <- p0.Keys :: q in players
  {
    map q | q in players :: q.Snapshot()
  }

  /** The largest group headed by the i-th player of the queue: 0 when none is viable. */
  ghost function MaxHeadedBy(p0: map<Player, Profile>, active: seq<Player>, i: nat): nat
    requires Known(p0, active) && i < |active|
  {
    MaxSize(p0, [active[i]], active[i + 1..])
  }

  /** `group` is a largest viable group headed by the first player of the queue who can head any. */
  ghost predicate HeadedByLongestWaiting(p0: map<Player, Profile>, active: seq<Player>, i: nat, group: seq<Player>)
    requires Known(p0, active) && i < |active|
  {
    && (forall j :: 0 <= j < i ==> MaxHeadedBy(p0, active, j) == 0)
    && ViableExtension(p0, [active[i]], active[i + 1..], group)
    && |group| == MaxHeadedBy(p0, active, i)
  }

  method Make(active: seq<Player>) returns (m: Match?)
    modifies set p <- active
    ensures Tracks(old(SnapshotAll(active)))
    ensures m == null <==> forall i :: 0 <= i < |active| ==> MaxHeadedBy(old(SnapshotAll(active)), active, i) == 0
    ensures m != null ==>
              exists i :: 0 <= i < |active| && HeadedByLongestWaiting(old(SnapshotAll(active)), active, i, m.invited)
    ensures m != null ==> fresh(m) && m.id == -1 && m.accepted == map[]
    ensures m != null ==> IsAssignment([], Wishes(Profiles(old(SnapshotAll(active)), m.invited)), m.positions)
  {
    ghost var p0 := SnapshotAll(active);
    for i := 0 to |active|
      invariant Tracks(p0)
      invariant forall j :: 0 <= j < i ==> MaxHeadedBy(p0, active, j) == 0
    {
      m := BestMatchFor([active[i]], active[i + 1..], p0);
      if m != null {
        assert HeadedByLongestWaiting(p0, active, i, m.invited);
        return;
      }
    }
    m := null;
  }

  /** Read against every viable group the queue holds: no match is offered only when there is no
      such group, and an offered match is at least as large as every viable group with the same
      head, while no viable group has an earlier head. */
  lemma OfferIsBest(p0: map<Player, Profile>, active: seq<Player>, rival: seq<Player>)
    requires Known(p0, active) && IsSub(rival, active) && Known(p0, rival) && Viable(Profiles(p0, rival))
    ensures exists j :: 0 <= j < |active| && rival[0] == active[j] && |rival| <= MaxHeadedBy(p0, active, j)
    ensures forall i, group | 0 <= i < |active| && HeadedByLongestWaiting(p0, active, i, group) ::
              exists j :: i <= j < |active| && rival[0] == active[j] && (j == i ==> |rival| <= |group|)
  {
    var j :| 0 <= j < |active| && PicksFirst(rival, active, j);
    assert rival == [active[j]] + rival[1..];
    assert ViableExtension(p0, [active[j]], active[j + 1..], rival);
    NoLargerGroup(p0, [active[j]], active[j + 1..], rival);
  }

  /** A match that is offered is a selection of two to five queued players in queue order. */
  lemma OfferIsSelection(p0: map<Player, Profile>, active: seq<Player>, i: nat, group: seq<Player>)
    requires Known(p0, active) && i < |active| && HeadedByLongestWaiting(p0, active, i, group)
    ensures IsSub(group, active) && 2 <= |group| <= 5
  {
    assert group[0] == [active[i]][0];
    assert PicksFirst(group, active, i);
  }
}
