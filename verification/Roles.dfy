/** Role allocation (lolstats-master/ingest/advanced_stats.go): from minion counts and buddy scores,
    who of each team played top, mid, adc, jungle and support. */
module Roles {
  import opened Buddies
  import opened MapOrder
  import opened Teams
  import opened Wrappers

  datatype Role = Top | Mid | Adc | Jungle | Support

  // ---------- Counting minions up to level six ----------

  function CountOf(cs: map<int, int>, p: int): int {
    if p in cs then cs[p] else 0
  }

  ghost function AtLevel(levels: map<int, map<string, int>>, region: string): int -> int {
    level => if level in levels && level <= 6 && region in levels[level] then levels[level][region] else 0
  }

  /** A participant's early minions in one region: a sum that no map order can change. */
  ghost function LaneMinions(interactions: map<int, map<int, map<string, int>>>, region: string, p: int): int {
    if p in interactions then SumOver(interactions[p].Keys, AtLevel(interactions[p], region)) else 0
  }

  ghost function JungleAtLevel(levels: map<int, int>): int -> int {
    level => if level in levels && level <= 6 then levels[level] else 0
  }

  ghost function JungleMinions(interactions: map<int, map<int, int>>, p: int): int {
    if p in interactions then SumOver(interactions[p].Keys, JungleAtLevel(interactions[p])) else 0
  }

  method CountLane(interactions: map<int, map<int, map<string, int>>>, region: string) returns (cs: map<int, int>)
    ensures forall p :: CountOf(cs, p) == LaneMinions(interactions, region, p)
  {
    cs := map[];
    var players := interactions.Keys;
    while players != {}
      invariant players <= interactions.Keys
      invariant forall p :: CountOf(cs, p) == if p in players then 0 else LaneMinions(interactions, region, p)
      decreases |players|
    {
      var p := Next(players);
      players := players - {p};
      var levels := interactions[p].Keys;
      ghost var f := AtLevel(interactions[p], region);
      ghost var before := cs;
      while levels != {}
        invariant levels <= interactions[p].Keys
        invariant CountOf(cs, p) + SumOver(levels, f) == LaneMinions(interactions, region, p)
        invariant forall q :: q != p ==> CountOf(cs, q) == CountOf(before, q)
        decreases |levels|
      {
        var level := Next(levels);
        SumOverTakes(levels, f, level);
        levels := levels - {level};
        if level > 6 {
          continue;
        }
        if region in interactions[p][level] {
          cs := cs[p := CountOf(cs, p) + interactions[p][level][region]];
        }
      }
    }
  }

  method CountJungle(interactions: map<int, map<int, int>>) returns (cs: map<int, int>)
    ensures forall p :: CountOf(cs, p) == JungleMinions(interactions, p)
  {
    cs := map[];
    var players := interactions.Keys;
    while players != {}
      invariant players <= interactions.Keys
      invariant forall p :: CountOf(cs, p) == if p in players then 0 else JungleMinions(interactions, p)
      decreases |players|
    {
      var p := Next(players);
      players := players - {p};
      var levels := interactions[p].Keys;
      ghost var f := JungleAtLevel(interactions[p]);
      ghost var before := cs;
      while levels != {}
        invariant levels <= interactions[p].Keys
        invariant CountOf(cs, p) + SumOver(levels, f) == JungleMinions(interactions, p)
        invariant forall q :: q != p ==> CountOf(cs, q) == CountOf(before, q)
        decreases |levels|
      {
        var level := Next(levels);
        SumOverTakes(levels, f, level);
        levels := levels - {level};
        if level > 6 {
          continue;
        }
        cs := cs[p := CountOf(cs, p) + interactions[p][level]];
      }
    }
  }

  // ---------- Picking one player of a team ----------

  datatype Preference = Most | Least {
    predicate AtLeastAsGood(a: int, b: int) {
      if Most? then a >= b else a <= b
    }
  }

  predicate IsCandidate(p: int, team: int, skip: set<int>) {
    1 <= p <= 10 && TeamID(p) == team && p !in skip
  }

  /** The best of the first `n` participants; of equals, the last one. -1 when nobody qualifies. */
  function BestOf(pref: Preference, cs: map<int, int>, team: int, skip: set<int>, n: nat): int
    requires n <= 10
  {
    if n == 0 then -1
    else
      var best := BestOf(pref, cs, team, skip, n - 1);
      if IsCandidate(n, team, skip) && (best == -1 || pref.AtLeastAsGood(CountOf(cs, n), CountOf(cs, best)))
      then n else best
  }

  function Best(pref: Preference, cs: map<int, int>, team: int, skip: set<int>): int {
    BestOf(pref, cs, team, skip, 10)
  }

  /** One number comes before another: it is larger, or smaller, or belongs to the higher of two players. */
  predicate Precedes(pref: Preference, a: int, p: int, b: int, q: int) {
    (pref == Most && a > b) || (pref == Least && a < b) || (a == b && p > q)
  }

  /** The pick is the one candidate that comes before all others: it has the most minions, or the fewest, and
      of equals it is the highest number. There is a pick whenever there is a candidate. */
  lemma {:induction false} BestIsBest(pref: Preference, cs: map<int, int>, team: int, skip: set<int>, n: nat)
    requires n <= 10
    ensures var best := BestOf(pref, cs, team, skip, n);
            if exists p :: p <= n && IsCandidate(p, team, skip)
            then best <= n && IsCandidate(best, team, skip)
                 && forall p :: p <= n && IsCandidate(p, team, skip) && p != best ==>
                                  Precedes(pref, CountOf(cs, best), best, CountOf(cs, p), p)
            else best == -1
  {
    if n > 0 {
      BestIsBest(pref, cs, team, skip, n - 1);
    }
  }

  method FindCs(pref: Preference, cs: map<int, int>, team: int, skip: map<int, Role>) returns (bestP: int)
    ensures bestP == Best(pref, cs, team, skip.Keys)
  {
    bestP := -1;
    for p := 1 to 11
      invariant bestP == BestOf(pref, cs, team, skip.Keys, p - 1)
    {
      if p in skip {
        continue;
      }
      if TeamID(p) != team {
        continue;
      }
      if bestP == -1 || pref.AtLeastAsGood(CountOf(cs, p), CountOf(cs, bestP)) {
        bestP := p;
      }
    }
  }

  /** Who is picked depends on the players of that team alone. */
  lemma {:induction false} BestAgrees(pref: Preference, cs: map<int, int>, team: int, skip: set<int>,
                                      skip': set<int>, n: nat)
    requires n <= 10 && forall p :: IsCandidate(p, team, skip) <==> IsCandidate(p, team, skip')
    ensures BestOf(pref, cs, team, skip, n) == BestOf(pref, cs, team, skip', n)
  {
    if n > 0 {
      BestAgrees(pref, cs, team, skip, skip', n - 1);
    }
  }

  // ---------- The picks of one team ----------

  datatype Counts = Counts(jungle: map<int, int>, bot: map<int, int>, mid: map<int, int>)

  function JunglerOf(c: Counts, team: int): int {
    Best(Most, c.jungle, team, {})
  }

  /** Everyone without minions in the bottom lane. */
  function NotBot(c: Counts): set<int> {
    set p | 1 <= p <= 10 && CountOf(c.bot, p) == 0
  }

  function SupportOf(c: Counts, team: int): int {
    Best(Least, c.bot, team, {JunglerOf(c, team)} + NotBot(c))
  }

  function MidlanerOf(c: Counts, team: int): int {
    Best(Most, c.mid, team, {JunglerOf(c, team), SupportOf(c, team)})
  }

  /** A team has a player who can be the support, and the support has a free teammate to pair with. */
  ghost predicate Resolves(c: Counts, scores: Scores, team: int) {
    && SupportOf(c, team) != -1
    && exists k :: k != JunglerOf(c, team) && k != MidlanerOf(c, team) && ScoreOf(scores, SupportOf(c, team), k) > 0
  }

  predicate IsTeam(team: int) {
    team == BLUE_TEAM || team == RED_TEAM
  }

  /** Each role is held by exactly one player of the team. */
  ghost predicate OneOfEach(roles: map<int, Role>, team: int) {
    forall role: Role :: HeldByOne(roles, team, role)
  }

  ghost predicate HeldByOne(roles: map<int, Role>, team: int, role: Role) {
    exists p <- roles :: HoldsAlone(roles, team, role, p)
  }

  ghost predicate HoldsAlone(roles: map<int, Role>, team: int, role: Role, p: int) {
    && p in roles && TeamID(p) == team && roles[p] == role
    && forall q <- roles :: TeamID(q) == team && roles[q] == role ==> q == p
  }

  lemma PicksAreDistinct(c: Counts, team: int)
    requires IsTeam(team)
    ensures TeamID(JunglerOf(c, team)) == team
    ensures SupportOf(c, team) != -1 ==> TeamID(SupportOf(c, team)) == team && SupportOf(c, team) != JunglerOf(c, team)
    ensures TeamID(MidlanerOf(c, team)) == team
    ensures MidlanerOf(c, team) != JunglerOf(c, team) && MidlanerOf(c, team) != SupportOf(c, team)
  {
    var j, s := JunglerOf(c, team), SupportOf(c, team);
    BestIsBest(Most, c.jungle, team, {}, 10);
    BestIsBest(Least, c.bot, team, {j} + NotBot(c), 10);
    BestIsBest(Most, c.mid, team, {j, s}, 10);
    var first := if team == BLUE_TEAM then 1 else 6;
    assert IsCandidate(first, team, {});
    assert IsCandidate(first, team, {j, s}) || IsCandidate(first + 1, team, {j, s})
           || IsCandidate(first + 2, team, {j, s});
  }

  // ---------- The allocation ----------

  method SkipIdle(c: Counts, roles: map<int, Role>) returns (marked: map<int, Role>)
    requires forall p <- roles :: roles[p] == Jungle
    ensures marked.Keys == roles.Keys + NotBot(c)
    ensures forall p <- marked :: marked[p] == if p in roles then Jungle else Adc
  {
    marked := roles;
    for i := 1 to 11
      invariant marked.Keys == roles.Keys + set p | 1 <= p < i && CountOf(c.bot, p) == 0
      invariant forall p <- marked :: marked[p] == if p in roles then Jungle else Adc
    {
      if CountOf(c.bot, i) == 0 && i !in marked {
        marked := marked[i := Adc];
      }
    }
  }

  method Unmark(marked: map<int, Role>) returns (roles: map<int, Role>)
    ensures roles == map p <- marked | !(1 <= p <= 10 && marked[p] == Adc) :: marked[p]
  {
    roles := marked;
    for i := 1 to 11
      invariant roles == map p <- marked | !(1 <= p < i && marked[p] == Adc) :: marked[p]
    {
      if i in roles && roles[i] == Adc {
        roles := roles - {i};
      }
    }
  }

  method FillTop(some: map<int, Role>) returns (roles: map<int, Role>)
    ensures forall p :: p in roles <==> p in some || 1 <= p <= 10
    ensures forall p <- roles :: roles[p] == if p in some then some[p] else Top
  {
    roles := some;
    for i := 1 to 11
      invariant forall p :: p in roles <==> p in some || 1 <= p < i
      invariant forall p <- roles :: roles[p] == if p in some then some[p] else Top
    {
      if i !in roles {
        roles := roles[i := Top];
      }
    }
  }

  /** The six roles given out before the adc: junglers, supports and midlaners of both teams. */
  ghost predicate SixPicks(c: Counts, roles: map<int, Role>) {
    && roles.Keys == {
                       JunglerOf(c, BLUE_TEAM), SupportOf(c, BLUE_TEAM), MidlanerOf(c, BLUE_TEAM),
                       JunglerOf(c, RED_TEAM), SupportOf(c, RED_TEAM), MidlanerOf(c, RED_TEAM)}
    && forall team :: IsTeam(team) ==>
                        && roles[JunglerOf(c, team)] == Jungle
                        && roles[SupportOf(c, team)] == Support
                        && roles[MidlanerOf(c, team)] == Mid
  }

  /** The four roles given out first. */
  ghost predicate FourPicks(c: Counts, roles: map<int, Role>) {
    && roles.Keys == {
                       JunglerOf(c, BLUE_TEAM), SupportOf(c, BLUE_TEAM), JunglerOf(c, RED_TEAM), SupportOf(c, RED_TEAM)}
    && forall team :: IsTeam(team) ==>
                        && roles[JunglerOf(c, team)] == Jungle
                        && roles[SupportOf(c, team)] == Support
  }

  method PickJunglers(c: Counts) returns (roles: map<int, Role>)
    ensures roles == map[JunglerOf(c, BLUE_TEAM) := Jungle, JunglerOf(c, RED_TEAM) := Jungle]
  {
    roles := map[];
    PicksAreDistinct(c, BLUE_TEAM);
    assert roles.Keys == {};
    var jungler := FindCs(Most, c.jungle, BLUE_TEAM, roles);
    roles := roles[jungler := Jungle];
    assert roles.Keys == {jungler} && TeamID(jungler) == BLUE_TEAM;
    BestAgrees(Most, c.jungle, RED_TEAM, {}, roles.Keys, 10);
    jungler := FindCs(Most, c.jungle, RED_TEAM, roles);
    roles := roles[jungler := Jungle];
  }

  /** The supports are looked for while everybody without bottom-lane minions is marked as taken. */
  method FindSupports(c: Counts, marked: map<int, Role>) returns (t1Support: int, t2Support: int)
    requires marked.Keys == {JunglerOf(c, BLUE_TEAM), JunglerOf(c, RED_TEAM)} + NotBot(c)
    ensures t1Support == SupportOf(c, BLUE_TEAM) && t2Support == SupportOf(c, RED_TEAM)
  {
    PicksAreDistinct(c, BLUE_TEAM);
    PicksAreDistinct(c, RED_TEAM);
    BestAgrees(Least, c.bot, BLUE_TEAM, {JunglerOf(c, BLUE_TEAM)} + NotBot(c), marked.Keys, 10);
    BestAgrees(Least, c.bot, RED_TEAM, {JunglerOf(c, RED_TEAM)} + NotBot(c), marked.Keys, 10);
    t1Support := FindCs(Least, c.bot, BLUE_TEAM, marked);
    t2Support := FindCs(Least, c.bot, RED_TEAM, marked);
  }

  method PickSupports(c: Counts, junglers: map<int, Role>)
    returns (roles: map<int, Role>, t1Support: int, t2Support: int)
    requires junglers == map[JunglerOf(c, BLUE_TEAM) := Jungle, JunglerOf(c, RED_TEAM) := Jungle]
    ensures roles == junglers[t1Support := Support][t2Support := Support]
    ensures t1Support == SupportOf(c, BLUE_TEAM) && t2Support == SupportOf(c, RED_TEAM)
  {
    var marked := SkipIdle(c, junglers);
    t1Support, t2Support := FindSupports(c, marked);
    marked := marked[t1Support := Support];
    marked := marked[t2Support := Support];
    roles := Unmark(marked);
    PicksAreDistinct(c, BLUE_TEAM);
    PicksAreDistinct(c, RED_TEAM);
    OnlyPicksAreLeft(junglers, marked, t1Support, t2Support);
  }

  lemma FourPicksHold(c: Counts, junglers: map<int, Role>, roles: map<int, Role>)
    requires junglers == map[JunglerOf(c, BLUE_TEAM) := Jungle, JunglerOf(c, RED_TEAM) := Jungle]
    requires roles == junglers[SupportOf(c, BLUE_TEAM) := Support][SupportOf(c, RED_TEAM) := Support]
    ensures FourPicks(c, roles)
  {
    PicksAreDistinct(c, BLUE_TEAM);
    PicksAreDistinct(c, RED_TEAM);
  }

  lemma OnlyPicksAreLeft(junglers: map<int, Role>, marked: map<int, Role>, s1: int, s2: int)
    requires forall p <- junglers :: p in marked && junglers[p] == Jungle && p != s1 && p != s2
    requires s1 in marked && s2 in marked
    requires forall p <- marked :: p in junglers || p == s1 || p == s2 || 1 <= p <= 10
    requires forall p <- marked :: marked[p] == if p == s1 || p == s2 then Support else if p in junglers then Jungle
                                                else Adc
    ensures (map p <- marked | !(1 <= p <= 10 && marked[p] == Adc) :: marked[p]) ==
            junglers[s1 := Support][s2 := Support]
  {
  }

  method PickMidlaners(c: Counts, four: map<int, Role>) returns (roles: map<int, Role>)
    requires FourPicks(c, four)
    ensures SixPicks(c, roles)
  {
    roles := four;
    PicksAreDistinct(c, BLUE_TEAM);
    PicksAreDistinct(c, RED_TEAM);
    BestAgrees(Most, c.mid, BLUE_TEAM, {JunglerOf(c, BLUE_TEAM), SupportOf(c, BLUE_TEAM)}, roles.Keys, 10);
    var mid := FindCs(Most, c.mid, BLUE_TEAM, roles);
    roles := roles[mid := Mid];
    BestAgrees(Most, c.mid, RED_TEAM, {JunglerOf(c, RED_TEAM), SupportOf(c, RED_TEAM)}, roles.Keys, 10);
    mid := FindCs(Most, c.mid, RED_TEAM, roles);
    roles := roles[mid := Mid];
  }

  /** The players of a team who have a role before the adc is chosen. */
  function TeamPicks(c: Counts, team: int): set<int> {
    {JunglerOf(c, team), SupportOf(c, team), MidlanerOf(c, team)}
  }

  /** The buddy of a support, when all six picks are players: -1 exactly when the team does not
      resolve, and otherwise a teammate without a role, whoever the map order favours. */
  lemma BuddyOfSupport(c: Counts, scores: Scores, team: int, taken: set<int>, k: int)
    requires IsTeam(team) && ScoresOk(scores) && SupportOf(c, team) != -1
    requires TeamPicks(c, team) <= taken
    requires forall p <- taken :: TeamID(p) == team ==> p in TeamPicks(c, team)
    requires IsBuddyFor(scores, SupportOf(c, team), taken, k)
    ensures k == -1 <==> !Resolves(c, scores, team)
    ensures k != -1 ==> TeamID(k) == team && k !in taken
                        && IsBuddyFor(scores, SupportOf(c, team), TeamPicks(c, team), k)
  {
    PicksAreDistinct(c, team);
    var s := SupportOf(c, team);
    forall j | ScoreOf(scores, s, j) > 0 ensures TeamID(j) == team && j != s {
    }
  }

  /** The jungler of a team has at least as many early jungle minions as every teammate. The support has some in
      the bottom lane, and no teammate but the jungler has fewer, unless he has none. The midlaner has at least
      as many in the middle lane as the three who are neither. Of equals, it is the higher number. */
  ghost predicate FollowsMinions(
    laneMinions: map<int, map<int, map<string, int>>>, jungleMinions: map<int, map<int, int>>, roles: map<int, Role>)
    requires forall p :: 1 <= p <= 10 ==> p in roles
  {
    forall p, q :: 1 <= p <= 10 && 1 <= q <= 10 && p != q && TeamID(p) == TeamID(q) ==>
                     && (roles[p] == Jungle ==> JunglesMore(jungleMinions, p, q))
                     && (roles[p] == Support ==> LaneMinions(laneMinions, "bot", p) != 0)
                     && (roles[p] == Support && roles[q] != Jungle ==> FarmsLess(laneMinions, p, q))
                     && (roles[p] == Mid && roles[q] != Jungle && roles[q] != Support ==> FarmsMore(laneMinions, p, q))
  }

  ghost predicate JunglesMore(jungleMinions: map<int, map<int, int>>, p: int, q: int) {
    var a, b := JungleMinions(jungleMinions, p), JungleMinions(jungleMinions, q);
    a > b || (a == b && p > q)
  }

  ghost predicate FarmsLess(laneMinions: map<int, map<int, map<string, int>>>, p: int, q: int) {
    var a, b := LaneMinions(laneMinions, "bot", p), LaneMinions(laneMinions, "bot", q);
    b == 0 || a < b || (a == b && p > q)
  }

  ghost predicate FarmsMore(laneMinions: map<int, map<int, map<string, int>>>, p: int, q: int) {
    var a, b := LaneMinions(laneMinions, "mid", p), LaneMinions(laneMinions, "mid", q);
    a > b || (a == b && p > q)
  }

  /** Roles that follow the picks follow the minions. */
  lemma PicksFollowMinions(
    laneMinions: map<int, map<int, map<string, int>>>, jungleMinions: map<int, map<int, int>>, c: Counts,
    scores: Scores, roles: map<int, Role>)
    requires forall p :: CountOf(c.jungle, p) == JungleMinions(jungleMinions, p)
    requires forall p :: CountOf(c.bot, p) == LaneMinions(laneMinions, "bot", p)
    requires forall p :: CountOf(c.mid, p) == LaneMinions(laneMinions, "mid", p)
    requires forall p :: 1 <= p <= 10 ==> p in roles
    requires FollowsCounts(c, scores, roles, BLUE_TEAM) && FollowsCounts(c, scores, roles, RED_TEAM)
    ensures FollowsMinions(laneMinions, jungleMinions, roles)
  {
    hide JungleMinions, LaneMinions, CountOf, IsBuddyFor, Best, NotBot;
    forall p, q | 1 <= p <= 10 && 1 <= q <= 10 && p != q && TeamID(p) == TeamID(q)
      ensures roles[p] == Jungle ==> JunglesMore(jungleMinions, p, q)
      ensures roles[p] == Support ==> LaneMinions(laneMinions, "bot", p) != 0
      ensures roles[p] == Support && roles[q] != Jungle ==> FarmsLess(laneMinions, p, q)
      ensures roles[p] == Mid && roles[q] != Jungle && roles[q] != Support ==> FarmsMore(laneMinions, p, q)
    {
      var team := TeamID(p);
      assert IsTeam(team) && FollowsCounts(c, scores, roles, team);
      PickedBefore(c, team, p, q);
    }
  }

  /** Who was picked comes before all who could have been. */
  lemma PickedBefore(c: Counts, team: int, p: int, q: int)
    requires 1 <= p <= 10 && 1 <= q <= 10 && p != q && TeamID(p) == TeamID(q) == team
    ensures p == JunglerOf(c, team) ==> Precedes(Most, CountOf(c.jungle, p), p, CountOf(c.jungle, q), q)
    ensures p == SupportOf(c, team) ==> CountOf(c.bot, p) != 0
    ensures p == SupportOf(c, team) && q != JunglerOf(c, team) && CountOf(c.bot, q) != 0 ==>
              Precedes(Least, CountOf(c.bot, p), p, CountOf(c.bot, q), q)
    ensures p == MidlanerOf(c, team) && q != JunglerOf(c, team) && q != SupportOf(c, team) ==>
              Precedes(Most, CountOf(c.mid, p), p, CountOf(c.mid, q), q)
  {
    hide CountOf, BestOf;
    var j, s := JunglerOf(c, team), SupportOf(c, team);
    BestIsBest(Most, c.jungle, team, {}, 10);
    BestIsBest(Least, c.bot, team, {j} + NotBot(c), 10);
    BestIsBest(Most, c.mid, team, {j, s}, 10);
    assert IsCandidate(p, team, {}) && IsCandidate(q, team, {});
    assert q != j && CountOf(c.bot, q) != 0 ==> IsCandidate(q, team, {j} + NotBot(c));
    assert q != j && q != s ==> IsCandidate(q, team, {j, s});
  }

  /** Sorts ten players into roles, or fails. It fails exactly when some team has nobody who can be
      the support or nobody left to be the support's buddy, and this does not depend on the order
      in which the maps are gone through. */
  method CalculateRolePosition(
    laneMinions: map<int, map<int, map<string, int>>>, jungleMinions: map<int, map<int, int>>, buddyFinder: BuddyFinder)
    returns (r: Option<map<int, Role>>, ghost c: Counts)
    requires ScoresOk(buddyFinder.earlyGameBuddyScore)
    ensures forall p :: CountOf(c.jungle, p) == JungleMinions(jungleMinions, p)
    ensures forall p :: CountOf(c.bot, p) == LaneMinions(laneMinions, "bot", p)
    ensures forall p :: CountOf(c.mid, p) == LaneMinions(laneMinions, "mid", p)
    ensures r.Some? <==> forall team :: IsTeam(team) ==> Resolves(c, buddyFinder.earlyGameBuddyScore, team)
    ensures r.Some? ==> forall p :: p in r.value <==> 1 <= p <= 10
    ensures r.Some? ==> forall team :: IsTeam(team) ==>
                                         OneOfEach(r.value, team)
                                         && FollowsCounts(c, buddyFinder.earlyGameBuddyScore, r.value, team)
    ensures r.Some? ==> FollowsMinions(laneMinions, jungleMinions, r.value)
  {
    hide FollowsMinions;
    var mid := CountLane(laneMinions, "mid");
    var bot := CountLane(laneMinions, "bot");
    var jungle := CountJungle(jungleMinions);
    c := Counts(jungle, bot, mid);
    var roles := PickJunglers(Counts(jungle, bot, mid));
    var t1Support, t2Support;
    ghost var junglers := roles;
    roles, t1Support, t2Support := PickSupports(Counts(jungle, bot, mid), roles);
    FourPicksHold(c, junglers, roles);
    roles := PickMidlaners(Counts(jungle, bot, mid), roles);
    r := PickAdcs(buddyFinder, c, roles, t1Support, t2Support);
    if r.Some? {
      PicksFollowMinions(laneMinions, jungleMinions, c, buddyFinder.earlyGameBuddyScore, r.value);
    }
  }

  /** The adcs are the supports' buddies, and whoever is left plays top. */
  method PickAdcs(buddyFinder: BuddyFinder, ghost c: Counts, six: map<int, Role>, t1Support: int, t2Support: int)
    returns (r: Option<map<int, Role>>)
    requires ScoresOk(buddyFinder.earlyGameBuddyScore) && SixPicks(c, six)
    requires t1Support == SupportOf(c, BLUE_TEAM) && t2Support == SupportOf(c, RED_TEAM)
    ensures r.Some? <==> forall team :: IsTeam(team) ==> Resolves(c, buddyFinder.earlyGameBuddyScore, team)
    ensures r.Some? ==> forall p :: p in r.value <==> 1 <= p <= 10
    ensures r.Some? ==> forall team :: IsTeam(team) ==>
                                         OneOfEach(r.value, team)
                                         && FollowsCounts(c, buddyFinder.earlyGameBuddyScore, r.value, team)
  {
    hide OneOfEach, FollowsCounts;
    ghost var scores := buddyFinder.earlyGameBuddyScore;
    var roles := six;
    var t1Adc := buddyFinder.BuddyFor(t1Support, roles.Keys);
    roles := roles[t1Adc := Adc];
    assert roles.Keys == six.Keys + {t1Adc};
    var t2Adc := buddyFinder.BuddyFor(t2Support, roles.Keys);
    roles := roles[t2Adc := Adc];
    assert roles.Keys == six.Keys + {t1Adc, t2Adc};
    BothAdcs(c, scores, six, t1Adc, t2Adc);
    if -1 !in roles {
      EightRoles(c, scores, six, t1Adc, t2Adc);
    }
    if -1 in roles || |roles| != 8 {
      return None;
    }
    SixPicksArePlayers(c, six);
    roles := FillTop(roles);
    AllRoles(c, scores, six, t1Adc, t2Adc, roles);
    r := Some(roles);
  }

  lemma SixPicksArePlayers(c: Counts, six: map<int, Role>)
    requires SixPicks(c, six) && SupportOf(c, BLUE_TEAM) != -1 && SupportOf(c, RED_TEAM) != -1
    ensures forall p <- six :: 1 <= p <= 10
  {
    PicksAreDistinct(c, BLUE_TEAM);
    PicksAreDistinct(c, RED_TEAM);
  }

  /** The jungler, the support, the midlaner and the adc of a team are who the numbers say. */
  ghost predicate FollowsCounts(c: Counts, scores: Scores, roles: map<int, Role>, team: int)
    requires forall p :: 1 <= p <= 10 ==> p in roles
  {
    forall p :: 1 <= p <= 10 && TeamID(p) == team ==>
                  && (roles[p] == Jungle <==> p == JunglerOf(c, team))
                  && (roles[p] == Support <==> p == SupportOf(c, team))
                  && (roles[p] == Mid <==> p == MidlanerOf(c, team))
                  && (roles[p] == Adc ==> IsBuddyFor(scores, SupportOf(c, team), TeamPicks(c, team), p))
  }

  /** Both adcs are players without another role exactly when both teams resolve. */
  lemma BothAdcs(c: Counts, scores: Scores, six: map<int, Role>, t1Adc: int, t2Adc: int)
    requires ScoresOk(scores) && SixPicks(c, six)
    requires IsBuddyFor(scores, SupportOf(c, BLUE_TEAM), six.Keys, t1Adc)
    requires IsBuddyFor(scores, SupportOf(c, RED_TEAM), six.Keys + {t1Adc}, t2Adc)
    ensures -1 !in six.Keys + {t1Adc, t2Adc} <==> Resolves(c, scores, BLUE_TEAM) && Resolves(c, scores, RED_TEAM)
    ensures -1 !in six.Keys + {t1Adc, t2Adc} ==>
              && IsAdc(c, scores, BLUE_TEAM, t1Adc) && t1Adc !in six
              && IsAdc(c, scores, RED_TEAM, t2Adc) && t2Adc !in six
  {
    PicksAreDistinct(c, BLUE_TEAM);
    PicksAreDistinct(c, RED_TEAM);
    if SupportOf(c, BLUE_TEAM) == -1 || SupportOf(c, RED_TEAM) == -1 {
      assert -1 in six;
    } else {
      BuddyOfSupport(c, scores, BLUE_TEAM, six.Keys, t1Adc);
      if t1Adc != -1 {
        BuddyOfSupport(c, scores, RED_TEAM, six.Keys + {t1Adc}, t2Adc);
      }
    }
  }

  /** A highest-scored teammate of the support who has no other role. */
  ghost predicate IsAdc(c: Counts, scores: Scores, team: int, adc: int) {
    && SupportOf(c, team) != -1
    && TeamID(adc) == team
    && adc !in TeamPicks(c, team)
    && IsBuddyFor(scores, SupportOf(c, team), TeamPicks(c, team), adc)
  }

  lemma EightRoles(c: Counts, scores: Scores, six: map<int, Role>, t1Adc: int, t2Adc: int)
    requires ScoresOk(scores) && SixPicks(c, six)
    requires IsAdc(c, scores, BLUE_TEAM, t1Adc) && IsAdc(c, scores, RED_TEAM, t2Adc)
    ensures |six[t1Adc := Adc][t2Adc := Adc]| == 8
  {
    hide JunglerOf, SupportOf, MidlanerOf, IsBuddyFor, ScoresOk, TeamID;
    PicksAreDistinct(c, BLUE_TEAM);
    PicksAreDistinct(c, RED_TEAM);
    var b, r := TeamPicks(c, BLUE_TEAM) + {t1Adc}, TeamPicks(c, RED_TEAM) + {t2Adc};
    FourDistinct(JunglerOf(c, BLUE_TEAM), SupportOf(c, BLUE_TEAM), MidlanerOf(c, BLUE_TEAM), t1Adc);
    FourDistinct(JunglerOf(c, RED_TEAM), SupportOf(c, RED_TEAM), MidlanerOf(c, RED_TEAM), t2Adc);
    TeamsAreDisjoint(b, r);
    assert six[t1Adc := Adc][t2Adc := Adc].Keys == b + r;
  }

  lemma FourDistinct(j: int, s: int, m: int, a: int)
    requires j != s && j != m && j != a && s != m && s != a && m != a
    ensures |{j, s, m} + {a}| == 4
  {
    assert |{j, s, m}| == 3;
  }

  lemma TeamsAreDisjoint(b: set<int>, r: set<int>)
    requires (forall p <- b :: TeamID(p) == BLUE_TEAM) && (forall p <- r :: TeamID(p) == RED_TEAM)
    ensures |b + r| == |b| + |r|
  {
    assert forall p: int :: p !in b * r;
    assert b * r == {};
  }

  /** Of five, four of whom are given, exactly one is left. */
  lemma OneOfFiveIsLeft<T>(five: set<T>, a: T, b: T, c: T, d: T) returns (t: T)
    requires |five| == 5 && a in five && b in five && c in five && d in five
    requires a != b && a != c && a != d && b != c && b != d && c != d
    ensures t in five && t != a && t != b && t != c && t != d
    ensures forall q <- five :: q == a || q == b || q == c || q == d || q == t
  {
    var rest := five - {a} - {b} - {c} - {d};
    assert |rest| == 1;
    t := Member(rest);
    assert |rest - {t}| == 0;
    assert rest - {t} == {};
  }

  lemma FifthPlayer(team: int, j: int, s: int, m: int, a: int) returns (t: int)
    requires IsTeam(team)
    requires TeamID(j) == team && TeamID(s) == team && TeamID(m) == team && TeamID(a) == team
    requires j != s && j != m && j != a && s != m && s != a && m != a
    ensures TeamID(t) == team && t != j && t != s && t != m && t != a
    ensures forall q :: TeamID(q) == team ==> q == j || q == s || q == m || q == a || q == t
  {
    var first := if team == BLUE_TEAM then 1 else 6;
    var five := {first, first + 1, first + 2, first + 3, first + 4};
    assert forall q :: TeamID(q) == team <==> q in five;
    t := OneOfFiveIsLeft(five, j, s, m, a);
    forall q | TeamID(q) == team ensures q == j || q == s || q == m || q == a || q == t {
      assert q in five;
    }
  }

  function RoleGiven(c: Counts, team: int, adc: int, p: int): Role {
    if p == JunglerOf(c, team) then Jungle
    else if p == SupportOf(c, team) then Support
    else if p == MidlanerOf(c, team) then Mid
    else if p == adc then Adc
    else Top
  }

  lemma TeamRoles(c: Counts, scores: Scores, team: int, adc: int, roles: map<int, Role>)
    requires IsTeam(team) && ScoresOk(scores) && IsAdc(c, scores, team, adc)
    requires forall p :: p in roles <==> 1 <= p <= 10
    requires forall p <- roles :: TeamID(p) == team ==> roles[p] == RoleGiven(c, team, adc, p)
    ensures OneOfEach(roles, team) && FollowsCounts(c, scores, roles, team)
  {
    PicksAreDistinct(c, team);
    var j, s, m := JunglerOf(c, team), SupportOf(c, team), MidlanerOf(c, team);
    var t := FifthPlayer(team, j, s, m, adc);
    forall role: Role ensures HeldByOne(roles, team, role)
    {
      var p := match role case Jungle => j case Support => s case Mid => m case Adc => adc case Top => t;
      assert HoldsAlone(roles, team, role, p);
    }
  }

  lemma AllRoles(c: Counts, scores: Scores, six: map<int, Role>, t1Adc: int, t2Adc: int, roles: map<int, Role>)
    requires ScoresOk(scores) && SixPicks(c, six)
    requires IsAdc(c, scores, BLUE_TEAM, t1Adc) && IsAdc(c, scores, RED_TEAM, t2Adc) && t1Adc !in six && t2Adc !in six
    requires forall p :: p in roles <==> 1 <= p <= 10
    requires forall p <- roles :: roles[p] == if p == t1Adc || p == t2Adc then Adc else if p in six then six[p] else Top
    ensures forall team :: IsTeam(team) ==> OneOfEach(roles, team) && FollowsCounts(c, scores, roles, team)
  {
    PicksAreDistinct(c, BLUE_TEAM);
    PicksAreDistinct(c, RED_TEAM);
    forall p | p in roles && TeamID(p) == BLUE_TEAM ensures roles[p] == RoleGiven(c, BLUE_TEAM, t1Adc, p) {
    }
    forall p | p in roles && TeamID(p) == RED_TEAM ensures roles[p] == RoleGiven(c, RED_TEAM, t2Adc, p) {
    }
    hide OneOfEach, FollowsCounts, RoleGiven;
    TeamRoles(c, scores, BLUE_TEAM, t1Adc, roles);
    TeamRoles(c, scores, RED_TEAM, t2Adc, roles);
  }
}
