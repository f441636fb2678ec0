/** Why fights are won and lost (lolstats-master/ingest/team_fights.go): every fight that matters is put
    down to its numbers, to one or more other differences, or to none of them. */
module FightReasons {
  import opened Basics
  import opened History
  import opened MapOrder
  import opened TeamFights
  import opened Teams

  datatype Reason =
    | NumbersDifference
    | NumbersDifferenceLackingVision
    | HealthDifference
    | GoldSpentDifference
    | NeutralDamageDifference
    | Other

  /** Which sign of a difference explains the outcome. */
  datatype Condition = Favorable | Unfavorable {
    predicate Holds(x: real) {
      if this == Favorable then x > 0.0 else x < 0.0
    }
  }

  function Abs(x: real): real {
    if x < 0.0 then -x else x
  }

  // ---------- Numbers ----------

  /** Strength in numbers: whoever only joined in counts for half. */
  ghost function Power(participants: set<int>, influencers: set<int>, team: int): real {
    |OnTeam(participants, team)| as real + |OnTeam(influencers, team)| as real * 0.5
  }

  lemma OneMore(group: set<int>, p: int, team: int)
    requires p !in group
    ensures |OnTeam(group + {p}, team)| == |OnTeam(group, team)| + if TeamID(p) == team then 1 else 0
  {
    assert OnTeam(group + {p}, team) == OnTeam(group, team) + if TeamID(p) == team then {p} else {};
  }

  function Entry(powers: map<int, real>, team: int): real {
    if team in powers then powers[team] else 0.0
  }

  lemma MoreParticipants(done: set<int>, p: int)
    requires p !in done
    ensures forall team :: Power(done + {p}, {}, team) == Power(done, {}, team) + if TeamID(p) == team then 1.0 else 0.0
  {
    hide OnTeam;
    forall team
      ensures Power(done + {p}, {}, team) == Power(done, {}, team) + if TeamID(p) == team then 1.0 else 0.0
    {
      OneMore(done, p, team);
    }
  }

  lemma MoreInfluencers(participants: set<int>, done: set<int>, p: int)
    requires p !in done
    ensures forall team ::
              Power(participants, done + {p}, team) ==
              Power(participants, done, team) + if TeamID(p) == team then 0.5 else 0.0
  {
    hide OnTeam;
    forall team
      ensures
        Power(participants, done + {p}, team) == Power(participants, done, team) + if TeamID(p) == team then 0.5
        else 0.0
    {
      OneMore(done, p, team);
    }
  }

  lemma NoPower()
    ensures forall team :: Power({}, {}, team) == 0.0
  {
    NobodyCounts();
  }

  /** How much stronger in numbers the tracked player's team is. */
  ghost function BalanceOf(f: TeamFight, me: int): real {
    Power(f.participants, f.influencers, TeamID(me)) - Power(f.participants, f.influencers, EnemyTeamID(me))
  }

  /** The balance of a fight, whatever order its members are met in. */
  method Balance(f: TeamFight, me: int) returns (balance: real)
    ensures balance == BalanceOf(f, me)
  {
    hide Power, TeamID, EnemyTeamID;
    var powers: map<int, real> := map[];
    var left := f.participants;
    NoPower();
    assert f.participants - left == {};
    while left != {}
      invariant left <= f.participants
      invariant forall team :: Entry(powers, team) == Power(f.participants - left, {}, team)
      decreases |left|
    {
      var p := Next(left);
      ghost var done := f.participants - left;
      MoreParticipants(done, p);
      left := left - {p};
      assert f.participants - left == done + {p};
      powers := powers[TeamID(p) := Entry(powers, TeamID(p)) + 1.0];
    }
    assert f.participants - left == f.participants;
    left := f.influencers;
    assert f.influencers - left == {};
    while left != {}
      invariant left <= f.influencers
      invariant forall team :: Entry(powers, team) == Power(f.participants, f.influencers - left, team)
      decreases |left|
    {
      var p := Next(left);
      ghost var done := f.influencers - left;
      MoreInfluencers(f.participants, done, p);
      left := left - {p};
      assert f.influencers - left == done + {p};
      powers := powers[TeamID(p) := Entry(powers, TeamID(p)) + 0.5];
    }
    assert f.influencers - left == f.influencers;
    balance := Entry(powers, TeamID(me)) - Entry(powers, EnemyTeamID(me));
  }

  lemma NobodyCounts()
    ensures forall team :: |OnTeam({}, team)| == 0
  {
    assert forall team :: OnTeam({}, team) == {};
  }

  /** How many participants are with the tracked player, and how many against him. */
  method Sizes(f: TeamFight, me: int) returns (us: int, them: int)
    requires me in PLAYERS && FightOk(f, me)
    ensures us == |OnTeam(f.participants, TeamID(me))| && them == |OnTeam(f.participants, EnemyTeamID(me))|
    ensures us > 0 && them > 0
  {
    us, them := 0, 0;
    AveragesAreDefined(f, me);
    NobodyCounts();
    hide OnTeam;
    var left := f.participants;
    assert f.participants - left == {};
    while left != {}
      invariant left <= f.participants
      invariant us == |OnTeam(f.participants - left, TeamID(me))|
      invariant them == |OnTeam(f.participants - left, EnemyTeamID(me))|
      decreases |left|
    {
      var p := Next(left);
      assert f.participants - (left - {p}) == (f.participants - left) + {p};
      OneMore(f.participants - left, p, TeamID(me));
      OneMore(f.participants - left, p, EnemyTeamID(me));
      assert p in PLAYERS;
      left := left - {p};
      if TeamID(me) == TeamID(p) {
        us := us + 1;
      } else {
        them := them + 1;
      }
    }
    assert f.participants - left == f.participants;
  }

  // ---------- Reasons ----------

  function PerHead(total: int, n: int): real
    requires n > 0
  {
    Min(total as real / n as real, 20000.0)
  }

  predicate HealthTells(f: TeamFight, cond: Condition, us: int, them: int)
    requires us > 0 && them > 0
  {
    var difference := f.sumTeamHealthPercent as real / us as real - f.sumEnemyHealthPercent as real / them as real;
    cond.Holds(difference) && Abs(difference) > 20.0
  }

  predicate GoldTells(f: TeamFight, cond: Condition, us: int, them: int)
    requires us > 0 && them > 0
  {
    var smaller := if us < them then us else them;
    var difference := PerHead(f.teamGoldSpent, smaller) - PerHead(f.enemyGoldSpent, smaller);
    cond.Holds(difference) && Abs(difference) > 500.0
  }

  predicate NeutralsTell(f: TeamFight, cond: Condition) {
    var difference := f.enemyNeutralDamageTaken - f.neutralDamageTaken;
    cond.Holds(difference) && Abs(difference) > 30.0
  }

  /** The differences, other than in numbers, that are large enough and point the right way. */
  ghost function Differences(f: TeamFight, cond: Condition, us: int, them: int): set<Reason>
    requires us > 0 && them > 0
  {
    (if HealthTells(f, cond, us, them) then {HealthDifference} else {})
    + (if GoldTells(f, cond, us, them) then {GoldSpentDifference} else {})
    + (if NeutralsTell(f, cond) then {NeutralDamageDifference} else {})
  }

  lemma DifferencesOnly(f: TeamFight, cond: Condition, us: int, them: int)
    requires us > 0 && them > 0
    ensures Differences(f, cond, us, them) <= {HealthDifference, GoldSpentDifference, NeutralDamageDifference}
  {
  }

  /** What a fight is put down to. */
  ghost function Reasons(f: TeamFight, me: int, cond: Condition, vision: map<int, bool>): (tags: set<Reason>)
    requires me in PLAYERS && FightOk(f, me)
    ensures tags != {}
    ensures NumbersDifference in tags || NumbersDifferenceLackingVision in tags || Other in tags ==> |tags| == 1
  {
    AveragesAreDefined(f, me);
    if cond.Holds(BalanceOf(f, me)) then
      if forall p <- vision :: vision[p] then {NumbersDifference} else {NumbersDifferenceLackingVision}
    else
      var differences :=
        Differences(f, cond, |OnTeam(f.participants, TeamID(me))|, |OnTeam(f.participants, EnemyTeamID(me))|);
      if differences == {} then {Other} else differences
  }

  lemma ReasonIsNumbers(f: TeamFight, me: int, cond: Condition, vision: map<int, bool>)
    requires me in PLAYERS && FightOk(f, me) && cond.Holds(BalanceOf(f, me))
    ensures Reasons(f, me, cond, vision) ==
            if forall p <- vision :: vision[p] then {NumbersDifference} else {NumbersDifferenceLackingVision}
  {
    hide FightOk, Power;
  }

  lemma ReasonsAreDifferences(f: TeamFight, me: int, cond: Condition, vision: map<int, bool>)
    requires me in PLAYERS && FightOk(f, me) && !cond.Holds(BalanceOf(f, me))
    ensures |OnTeam(f.participants, TeamID(me))| > 0 && |OnTeam(f.participants, EnemyTeamID(me))| > 0
    ensures var differences :=
              Differences(f, cond, |OnTeam(f.participants, TeamID(me))|, |OnTeam(f.participants, EnemyTeamID(me))|);
            Reasons(f, me, cond, vision) == if differences == {} then {Other} else differences
  {
    hide FightOk, Power, Differences;
    AveragesAreDefined(f, me);
  }

  // ---------- What the reasons say in figures ----------

  /** Strength in numbers without halves. */
  ghost function Strength(f: TeamFight, team: int): int {
    2 * |OnTeam(f.participants, team)| + |OnTeam(f.influencers, team)|
  }

  /** More than twenty percent more health a head. */
  predicate Healthier(health: int, heads: int, otherHealth: int, otherHeads: int) {
    health * otherHeads > otherHealth * heads + 20 * heads * otherHeads
  }

  /** Over five hundred gold more for each of the smaller side, whose cap the other side has not come close to. */
  predicate Wealthier(gold: int, otherGold: int, heads: int) {
    gold > otherGold + 500 * heads && otherGold < 19500 * heads
  }

  /** What a fight is put down to when one side did better than the other, said in the figures of both. */
  ghost predicate ExplainedBy(
    tags: set<Reason>, stronger: bool, healthier: bool, wealthier: bool, lessHurt: bool, vision: map<int, bool>)
  {
    && (NumbersDifference in tags <==> stronger && forall p <- vision :: vision[p])
    && (NumbersDifferenceLackingVision in tags <==> stronger && exists p <- vision :: !vision[p])
    && (HealthDifference in tags <==> !stronger && healthier)
    && (GoldSpentDifference in tags <==> !stronger && wealthier)
    && (NeutralDamageDifference in tags <==> !stronger && lessHurt)
    && (Other in tags <==> !stronger && !healthier && !wealthier && !lessHurt)
  }

  lemma SameSign(x: real, n: real)
    requires n > 0.0
    ensures x > 0.0 <==> x * n > 0.0
  {
  }

  lemma CrossMultiply(x: int, n: int, y: int, m: int)
    requires n > 0 && m > 0
    ensures x as real / n as real - y as real / m as real > 20.0 <==> x * m > y * n + 20 * n * m
  {
    var p, q := x as real / n as real, y as real / m as real;
    var N, M := n as real, m as real;
    SameSign(p - q - 20.0, N);
    SameSign((p - q - 20.0) * N, M);
    assert p * N == x as real && q * M == y as real;
    assert (p - q - 20.0) * N * M == x as real * M - y as real * N - 20.0 * N * M;
    assert x as real * M == (x * m) as real && y as real * N == (y * n) as real && N * M == (n * m) as real;
  }

  lemma HealthInFigures(f: TeamFight, us: int, them: int)
    requires us > 0 && them > 0
    ensures HealthTells(f, Favorable, us, them) <==>
            Healthier(f.sumTeamHealthPercent, us, f.sumEnemyHealthPercent, them)
    ensures HealthTells(f, Unfavorable, us, them) <==>
            Healthier(f.sumEnemyHealthPercent, them, f.sumTeamHealthPercent, us)
  {
    CrossMultiply(f.sumTeamHealthPercent, us, f.sumEnemyHealthPercent, them);
    CrossMultiply(f.sumEnemyHealthPercent, them, f.sumTeamHealthPercent, us);
  }

  lemma PerHeadDiffers(gold: int, otherGold: int, n: int)
    requires n > 0
    ensures PerHead(gold, n) - PerHead(otherGold, n) > 500.0 <==> Wealthier(gold, otherGold, n)
  {
    var p, q, N := gold as real / n as real, otherGold as real / n as real, n as real;
    assert p * N == gold as real && q * N == otherGold as real;
    SameSign(p - q - 500.0, N);
    SameSign(19500.0 - q, N);
    assert (p - q - 500.0) * N == (gold - otherGold - 500 * n) as real;
    assert (19500.0 - q) * N == (19500 * n - otherGold) as real;
  }

  lemma GoldInFigures(f: TeamFight, us: int, them: int)
    requires us > 0 && them > 0
    ensures var smaller := if us < them then us else them;
            && (GoldTells(f, Favorable, us, them) <==> Wealthier(f.teamGoldSpent, f.enemyGoldSpent, smaller))
            && (GoldTells(f, Unfavorable, us, them) <==> Wealthier(f.enemyGoldSpent, f.teamGoldSpent, smaller))
  {
    hide PerHead, Wealthier;
    var smaller := if us < them then us else them;
    PerHeadDiffers(f.teamGoldSpent, f.enemyGoldSpent, smaller);
    PerHeadDiffers(f.enemyGoldSpent, f.teamGoldSpent, smaller);
  }

  lemma NumbersInFigures(f: TeamFight, me: int)
    ensures Favorable.Holds(BalanceOf(f, me)) <==> Strength(f, TeamID(me)) > Strength(f, EnemyTeamID(me))
    ensures Unfavorable.Holds(BalanceOf(f, me)) <==> Strength(f, TeamID(me)) < Strength(f, EnemyTeamID(me))
  {
    hide OnTeam, TeamID, EnemyTeamID;
  }

  /** A gain is put down to what the team had more of than the enemy, and a loss to what it had less of: to numbers
      first of all, and otherwise to health, gold spent, and damage that turrets and monsters did to the other side. */
  lemma ReasonsInFigures(f: TeamFight, me: int, vision: map<int, bool>)
    requires me in PLAYERS && FightOk(f, me)
    ensures var us, them := |OnTeam(f.participants, TeamID(me))|, |OnTeam(f.participants, EnemyTeamID(me))|;
            var smaller := if us < them then us else them;
            var strength, otherStrength := Strength(f, TeamID(me)), Strength(f, EnemyTeamID(me));
            && ExplainedBy(Reasons(f, me, Favorable, vision), strength > otherStrength,
                           Healthier(f.sumTeamHealthPercent, us, f.sumEnemyHealthPercent, them),
                           Wealthier(f.teamGoldSpent, f.enemyGoldSpent, smaller),
                           f.enemyNeutralDamageTaken > f.neutralDamageTaken + 30.0, vision)
            && ExplainedBy(Reasons(f, me, Unfavorable, vision), strength < otherStrength,
                           Healthier(f.sumEnemyHealthPercent, them, f.sumTeamHealthPercent, us),
                           Wealthier(f.enemyGoldSpent, f.teamGoldSpent, smaller),
                           f.neutralDamageTaken > f.enemyNeutralDamageTaken + 30.0, vision)
  {
    hide FightOk, BalanceOf, Strength, HealthTells, GoldTells, Healthier, Wealthier, OnTeam, TeamID, EnemyTeamID,
      Reasons, ExplainedBy, Condition.Holds;
    AveragesAreDefined(f, me);
    var us, them := |OnTeam(f.participants, TeamID(me))|, |OnTeam(f.participants, EnemyTeamID(me))|;
    HealthInFigures(f, us, them);
    GoldInFigures(f, us, them);
    NumbersInFigures(f, me);
    NeutralsInFigures(f);
    ReasonsExplain(f, me, Favorable, vision);
    ReasonsExplain(f, me, Unfavorable, vision);
  }

  lemma NeutralsInFigures(f: TeamFight)
    ensures NeutralsTell(f, Favorable) <==> f.enemyNeutralDamageTaken > f.neutralDamageTaken + 30.0
    ensures NeutralsTell(f, Unfavorable) <==> f.neutralDamageTaken > f.enemyNeutralDamageTaken + 30.0
  {
  }

  lemma ReasonsExplain(f: TeamFight, me: int, cond: Condition, vision: map<int, bool>)
    requires me in PLAYERS && FightOk(f, me)
    requires |OnTeam(f.participants, TeamID(me))| > 0 && |OnTeam(f.participants, EnemyTeamID(me))| > 0
    ensures var us, them := |OnTeam(f.participants, TeamID(me))|, |OnTeam(f.participants, EnemyTeamID(me))|;
            ExplainedBy(Reasons(f, me, cond, vision), cond.Holds(BalanceOf(f, me)), HealthTells(f, cond, us, them),
                        GoldTells(f, cond, us, them), NeutralsTell(f, cond), vision)
  {
    hide FightOk, BalanceOf, HealthTells, GoldTells, NeutralsTell, OnTeam, TeamID, EnemyTeamID, Reasons,
      Condition.Holds;
    if cond.Holds(BalanceOf(f, me)) {
      ReasonIsNumbers(f, me, cond, vision);
    } else {
      ReasonsAreDifferences(f, me, cond, vision);
    }
  }

  method HaveVision(vision: map<int, bool>) returns (r: bool)
    ensures r <==> forall p <- vision :: vision[p]
  {
    var left := vision.Keys;
    while left != {}
      invariant left <= vision.Keys && forall p <- vision :: p !in left ==> vision[p]
      decreases |left|
    {
      var p := Next(left);
      left := left - {p};
      if !vision[p] {
        return false;
      }
    }
    return true;
  }

  class SignificantFights {
    var total: int
    var counts: map<Reason, int>

    constructor ()
      ensures total == 0 && counts == map[]
    {
      total, counts := 0, map[];
    }

    function Count(reason: Reason): int
      reads this`counts
    {
      if reason in counts then counts[reason] else 0
    }

    /** No fight is lost, and one that is put down to numbers, or to nothing, is put down to nothing else. */
    ghost predicate Accounted()
      reads this
    {
      && (forall reason :: 0 <= Count(reason) <= total)
      && Count(NumbersDifference) + Count(NumbersDifferenceLackingVision) + Count(Other) <= total
      && total <= Count(NumbersDifference) + Count(NumbersDifferenceLackingVision) + Count(Other)
                  + Count(HealthDifference) + Count(GoldSpentDifference) + Count(NeutralDamageDifference)
    }

    method Increment(reason: Reason)
      modifies `counts
      ensures forall r :: Count(r) == old(Count(r)) + if r == reason then 1 else 0
    {
      counts := counts[reason := Count(reason) + 1];
    }

    /** Counts the differences other than in numbers. */
    method CountDifferences(f: TeamFight, cond: Condition, us: int, them: int) returns (tags: set<Reason>)
      requires us > 0 && them > 0
      modifies `counts
      ensures tags == Differences(f, cond, us, them)
      ensures forall reason :: Count(reason) == old(Count(reason)) + if reason in tags then 1 else 0
    {
      hide HealthTells, GoldTells, NeutralsTell, Count;
      tags := {};
      if HealthTells(f, cond, us, them) {
        Increment(HealthDifference);
        tags := tags + {HealthDifference};
      }
      if GoldTells(f, cond, us, them) {
        Increment(GoldSpentDifference);
        tags := tags + {GoldSpentDifference};
      }
      if NeutralsTell(f, cond) {
        Increment(NeutralDamageDifference);
        tags := tags + {NeutralDamageDifference};
      }
    }

    /** Counts a fight under everything it is put down to. */
    method ProcessFight(f: TeamFight, me: int, cond: Condition, vision: map<int, bool>) returns (tags: set<Reason>)
      requires me in PLAYERS && FightOk(f, me) && Accounted()
      modifies this
      ensures Accounted() && total == old(total) + 1
      ensures tags == Reasons(f, me, cond, vision)
      ensures forall reason :: Count(reason) == old(Count(reason)) + if reason in tags then 1 else 0
    {
      hide FightOk, Power, Differences, Count, OnTeam, TeamID, EnemyTeamID, Reasons;
      total := total + 1;
      var balance := Balance(f, me);
      if cond.Holds(balance) {
        var haveVision := HaveVision(vision);
        var reason := if haveVision then NumbersDifference else NumbersDifferenceLackingVision;
        Increment(reason);
        ReasonIsNumbers(f, me, cond, vision);
        return {reason};
      }
      var us, them := Sizes(f, me);
      tags := CountDifferences(f, cond, us, them);
      DifferencesOnly(f, cond, us, them);
      ReasonsAreDifferences(f, me, cond, vision);
      if tags == {} {
        Increment(Other);
        tags := {Other};
      }
    }
  }

  // ---------- Kills and deaths that matter ----------

  /** A fight in which the team gained, with a kill the tracked player had a part in. */
  ghost predicate IsGain(f: TeamFight) {
    f.netGoldDiff > 300 && exists p <- f.teamKills :: p in f.damageDealt && f.damageDealt[p] > 0.0
  }

  /** A fight in which the team lost, and the tracked player died. */
  predicate IsLoss(f: TeamFight, me: int) {
    me in f.teamDeaths && f.netGoldDiff < -300
  }

  ghost function Gains(fights: seq<TeamFight>): nat {
    if fights == [] then 0
    else Gains(fights[..|fights| - 1]) + if IsGain(fights[|fights| - 1]) then 1 else 0
  }

  ghost function Losses(fights: seq<TeamFight>, me: int): nat {
    if fights == [] then 0
    else Losses(fights[..|fights| - 1], me) + if IsLoss(fights[|fights| - 1], me) then 1 else 0
  }

  /** No fight counts as both. */
  lemma {:induction false} NoFightIsBoth(fights: seq<TeamFight>, me: int)
    ensures Gains(fights) + Losses(fights, me) <= |fights|
  {
    if fights != [] {
      NoFightIsBoth(fights[..|fights| - 1], me);
    }
  }

  method Contributed(f: TeamFight) returns (r: bool)
    ensures r <==> exists p <- f.teamKills :: p in f.damageDealt && f.damageDealt[p] > 0.0
  {
    var left := f.teamKills;
    while left != {}
      invariant left <= f.teamKills
      invariant forall p <- f.teamKills :: p !in left ==> !(p in f.damageDealt && f.damageDealt[p] > 0.0)
      decreases |left|
    {
      var p := Next(left);
      left := left - {p};
      if p in f.damageDealt && f.damageDealt[p] > 0.0 {
        return true;
      }
    }
    return false;
  }

  /** The tallies of all recorded fights: each fight that matters is counted once, in one of the two. */
  method SignificantKillsAndDeaths(fights: seq<TeamFight>, c: Setting)
    returns (kills: SignificantFights, deaths: SignificantFights)
    requires c.me in PLAYERS && FightsOk(fights, c)
    ensures fresh(kills) && fresh(deaths) && kills.Accounted() && deaths.Accounted()
    ensures kills.total == Gains(fights) && deaths.total == Losses(fights, c.me)
    ensures kills.total + deaths.total <= |fights|
  {
    hide FightOk;
    kills := new SignificantFights();
    deaths := new SignificantFights();
    for i := 0 to |fights|
      invariant fresh(kills) && fresh(deaths) && kills != deaths && kills.Accounted() && deaths.Accounted()
      invariant kills.total == Gains(fights[..i]) && deaths.total == Losses(fights[..i], c.me)
    {
      var f := fights[i];
      assert f in fights && fights[..i + 1][..i] == fights[..i];
      if |f.teamKills| > 0 && f.netGoldDiff > 300 {
        var contributed := Contributed(f);
        if contributed {
          var tags := kills.ProcessFight(f, c.me, Favorable, f.alliesInVision);
        }
      }
      if c.me in f.teamDeaths && f.netGoldDiff < -300 {
        var tags := deaths.ProcessFight(f, c.me, Unfavorable, f.enemiesInVision);
      }
    }
    assert fights[..|fights|] == fights;
    NoFightIsBoth(fights, c.me);
  }
}
