/** The figures of a fight (lolstats-master/ingest/team_fights.go): over any match, what is written down of a fight
    is what the damage and the deaths since its opening add up to. */
module FightFigures {
  import opened FightRuns
  import opened History
  import opened MapOrder
  import opened Sight
  import opened TeamFights
  import opened Teams
  import opened Wrappers

  // ---------- What the events add up to ----------

  /** The damage of all hits that count, each judged by the events before it. */
  ghost function Total(events: seq<Event>, counts: (seq<Event>, Damage) -> bool): real {
    if events == [] then 0.0
    else
      var past, e := events[..|events| - 1], events[|events| - 1];
      Total(past, counts) + if e.Hit? && counts(past, e.damage) then e.damage.percent else 0.0
  }

  /** A turret or a monster hits a member of a group who is on a team. */
  ghost function ByNeutrals(group: set<int>, team: int): (seq<Event>, Damage) -> bool {
    (past: seq<Event>, t: Damage) => TeamID(t.attackerID) == 0 && t.victimID in group && TeamID(t.victimID) == team
  }

  /** One player hits another. */
  ghost function Between(attacker: int, victim: int): (seq<Event>, Damage) -> bool {
    (past: seq<Event>, t: Damage) => t.attackerID == attacker && t.victimID == victim
  }

  /** Anybody hits a player who is involved by then. */
  ghost function OnInvolved(group: set<int>, victim: int): (seq<Event>, Damage) -> bool {
    (past: seq<Event>, t: Damage) => t.victimID == victim && (victim in group || victim in Joiners(past, group))
  }

  /** The champions outside a group who have hit one of its members. */
  ghost function Joiners(events: seq<Event>, group: set<int>): set<int> {
    if events == [] then {}
    else
      var past, e := Joiners(events[..|events| - 1], group), events[|events| - 1];
      if e.Hit? && TeamID(e.damage.attackerID) != 0 && e.damage.attackerID !in group && e.damage.victimID in group
      then past + {e.damage.attackerID} else past
  }

  /** The members of a team who have died after they were involved. */
  ghost function Fallen(events: seq<Event>, group: set<int>, team: int): set<int> {
    if events == [] then {}
    else
      var front, e := events[..|events| - 1], events[|events| - 1];
      var past := Fallen(front, group, team);
      if e.Death? && e.victimID in group + Joiners(front, group) && TeamID(e.victimID) == team
      then past + {e.victimID} else past
  }

  /** The hit that opens a fight is taken off the health of the victim's side. */
  ghost function FirstLoss(events: seq<Event>, team: int): int
    requires events != []
  {
    if events[0].Hit? && TeamID(events[0].damage.victimID) == team then Round(events[0].damage.percent) else 0
  }

  /** What a fight looks like that was opened as `f` by the first of the events, once all of them have happened. */
  ghost predicate AddsUp(g: TeamFight, f: TeamFight, me: int, events: seq<Event>)
    requires events != []
  {
    && g.influencers == Joiners(events, f.participants)
    && g.teamKills == Fallen(events, f.participants, EnemyTeamID(me))
    && g.teamDeaths == Fallen(events, f.participants, TeamID(me))
    && g.sumTeamHealthPercent == f.sumTeamHealthPercent - FirstLoss(events, TeamID(me))
    && g.sumEnemyHealthPercent == f.sumEnemyHealthPercent - FirstLoss(events, EnemyTeamID(me))
    && DamageAddsUp(g, f, me, events)
    && SameOpening(g, f)
  }

  ghost predicate DamageAddsUp(g: TeamFight, f: TeamFight, me: int, events: seq<Event>) {
    && g.neutralDamageTaken == f.neutralDamageTaken + Total(events, ByNeutrals(f.participants, TeamID(me)))
    && g.enemyNeutralDamageTaken ==
       f.enemyNeutralDamageTaken + Total(events, ByNeutrals(f.participants, EnemyTeamID(me)))
    && (forall p: int :: Value(g.damageDealt, p) == Total(events, Between(me, p)))
    && (forall p: int :: Value(g.enemyDamageTaken, p) ==
                         if TeamID(p) == EnemyTeamID(me) then Total(events, OnInvolved(f.participants, p)) else 0.0)
  }

  /** What is written down at the opening stays as it is. */
  ghost predicate SameOpening(g: TeamFight, f: TeamFight) {
    && g.begin == f.begin && g.participants == f.participants && g.initialTarget == f.initialTarget
    && g.participantLevel == f.participantLevel && g.enemyLevelAverage == f.enemyLevelAverage
    && g.teamGoldSpent == f.teamGoldSpent && g.enemyGoldSpent == f.enemyGoldSpent
    && g.teamSummonerSpells == f.teamSummonerSpells && g.enemySummonerSpells == f.enemySummonerSpells
    && g.enemiesInVision == f.enemiesInVision && g.alliesInVision == f.alliesInVision
    && g.teamGoldAtStart == f.teamGoldAtStart && g.enemyGoldAtStart == f.enemyGoldAtStart
  }

  // ---------- One event ----------

  /** What an event does to the open fight. */
  lemma OpenStep(c: Setting, v: View, e: Event)
    requires IsOpen(v.fights, c.matchDuration) && Step(c, v, e).Some?
    ensures var n, w := |v.fights| - 1, Step(c, v, e).value;
            && |w.fights| == n + 1
            && match e
               case Hit(t, _) => w.fights[n] == WithDamage(v.fights[n], c.me, t)
               case Death(p, _, _) => w.fights[n] == WithDeath(v.fights[n], c.me, p)
               case Report(_) =>
                 w.fights[n] == v.fights[n].(end := w.fights[n].end, netGoldDiff := w.fights[n].netGoldDiff)
               case Other(_, _) => w.fights[n] == v.fights[n]
  {
    hide AfterReport, AfterDamage, AfterDeath, WithDamage, WithDeath;
    match e
    case Hit(t, wards) => OpenHit(c, v, t, wards);
    case Death(p, sec, wards) => OpenDeath(c, v, p, sec, wards);
    case Report(u) => OpenReport(c, v, u);
    case Other(_, _) =>
  }

  lemma OpenHit(c: Setting, v: View, t: Damage, wards: Wards)
    requires IsOpen(v.fights, c.matchDuration) && AfterDamage(c, v, t, wards).Some?
    ensures AfterDamage(c, v, t, wards).value.fights ==
            v.fights[|v.fights| - 1 := WithDamage(v.fights[|v.fights| - 1], c.me, t)]
  {
    hide WithDamage, Closest, Hurt, ContinuousDamage.Add, ContinuousAttack.Add;
  }

  lemma OpenDeath(c: Setting, v: View, p: int, seconds: real, wards: Wards)
    requires IsOpen(v.fights, c.matchDuration) && AfterDeath(c, v, p, seconds, wards).Some?
    ensures AfterDeath(c, v, p, seconds, wards).value.fights ==
            v.fights[|v.fights| - 1 := WithDeath(v.fights[|v.fights| - 1], c.me, p)]
  {
    hide WithDeath, WithoutPlayer;
  }

  lemma OpenReport(c: Setting, v: View, u: Update)
    requires IsOpen(v.fights, c.matchDuration) && AfterReport(c, v, u).Some?
    ensures var n, w := |v.fights| - 1, AfterReport(c, v, u).value;
            && |w.fights| == n + 1
            && w.fights[n] == v.fights[n].(end := w.fights[n].end, netGoldDiff := w.fights[n].netGoldDiff)
  {
    hide WithReport, Closest, Reviewed, GoesOn, MayReadNil;
    var w := v.(states := WithReport(v.states, u));
    if Closest(w.states, u.seconds).Some? {
      ReviewChanges(v.fights[|v.fights| - 1], w.states[Closest(w.states, u.seconds).value], v, u.seconds, c.me);
    }
  }

  lemma ReviewChanges(f: TeamFight, s: Snapshot, v: View, seconds: real, me: int)
    ensures var g := Reviewed(f, s, v, seconds, me); g == f.(end := g.end, netGoldDiff := g.netGoldDiff)
  {
    hide LastHit, GoesOn, TeamGold;
  }

  /** While no fight is open, the fights stay as they are until another one opens. */
  lemma ClosedStep(c: Setting, v: View, e: Event)
    requires !IsOpen(v.fights, c.matchDuration) && Step(c, v, e).Some?
    ensures var w := Step(c, v, e).value; |w.fights| == |v.fights| ==> w.fights == v.fights
  {
    hide WithDamage, WithFirstDamage, WithDeath, WithReport, Closest, WithoutPlayer, Hurt, Opens, ContinuousDamage.Add,
      ContinuousAttack.Add;
  }

  lemma TotalGrows(events: seq<Event>, e: Event, counts: (seq<Event>, Damage) -> bool)
    ensures Total(events + [e], counts) ==
            Total(events, counts) + if e.Hit? && counts(events, e.damage) then e.damage.percent else 0.0
  {
    assert (events + [e])[..|events|] == events;
  }

  lemma JoinersGrow(events: seq<Event>, e: Event, group: set<int>)
    ensures Joiners(events + [e], group) ==
            Joiners(events, group)
            + if e.Hit? && TeamID(e.damage.attackerID) != 0 && e.damage.attackerID !in group
                 && e.damage.victimID in group then {e.damage.attackerID} else {}
  {
    assert (events + [e])[..|events|] == events;
  }

  lemma FallenGrow(events: seq<Event>, e: Event, group: set<int>, team: int)
    ensures Fallen(events + [e], group, team) ==
            Fallen(events, group, team)
            + if e.Death? && e.victimID in group + Joiners(events, group) && TeamID(e.victimID) == team
            then {e.victimID} else {}
  {
    assert (events + [e])[..|events|] == events;
  }

  lemma TwoTeams(me: int, p: int)
    requires me in PLAYERS && p in PLAYERS
    ensures TeamID(p) == TeamID(me) <==> TeamID(p) != EnemyTeamID(me)
  {
  }

  lemma HitAddsUp(g: TeamFight, f: TeamFight, me: int, events: seq<Event>, e: Event)
    requires me in PLAYERS && f.participants <= PLAYERS && e.Hit? && e.Ok()
    requires g.participants == f.participants && g.influencers == Joiners(events, f.participants)
    requires DamageAddsUp(g, f, me, events)
    ensures var h := WithDamage(g, me, e.damage);
            && DamageAddsUp(h, f, me, events + [e]) && h.influencers == Joiners(events + [e], f.participants)
            && h.sumTeamHealthPercent == g.sumTeamHealthPercent && h.sumEnemyHealthPercent == g.sumEnemyHealthPercent
  {
    hide TeamID, EnemyTeamID, Joiners, Total;
    var h, group := WithDamage(g, me, e.damage), f.participants;
    TwoTeams(me, e.damage.victimID);
    JoinersGrow(events, e, group);
    TotalGrows(events, e, ByNeutrals(group, TeamID(me)));
    TotalGrows(events, e, ByNeutrals(group, EnemyTeamID(me)));
    forall p: int
      ensures Value(h.damageDealt, p) == Total(events + [e], Between(me, p))
    {
      TotalGrows(events, e, Between(me, p));
    }
    forall p: int
      ensures Value(h.enemyDamageTaken, p) ==
              if TeamID(p) == EnemyTeamID(me) then Total(events + [e], OnInvolved(group, p)) else 0.0
    {
      TotalGrows(events, e, OnInvolved(group, p));
    }
  }

  lemma OtherAddsUp(g: TeamFight, f: TeamFight, me: int, events: seq<Event>, e: Event)
    requires !e.Hit? && DamageAddsUp(g, f, me, events) && g.influencers == Joiners(events, f.participants)
    ensures DamageAddsUp(g, f, me, events + [e]) && g.influencers == Joiners(events + [e], f.participants)
  {
    hide TeamID, EnemyTeamID, Joiners, Total;
    JoinersGrow(events, e, f.participants);
    TotalGrows(events, e, ByNeutrals(f.participants, TeamID(me)));
    TotalGrows(events, e, ByNeutrals(f.participants, EnemyTeamID(me)));
    forall p: int
      ensures Total(events + [e], Between(me, p)) == Total(events, Between(me, p))
      ensures Total(events + [e], OnInvolved(f.participants, p)) == Total(events, OnInvolved(f.participants, p))
    {
      TotalGrows(events, e, Between(me, p));
      TotalGrows(events, e, OnInvolved(f.participants, p));
    }
  }

  lemma OnlyDamage(g: TeamFight, me: int, t: Damage)
    ensures var h := WithDamage(g, me, t); h.teamKills == g.teamKills && h.teamDeaths == g.teamDeaths
    ensures SameOpening(WithDamage(g, me, t), g)
    ensures var h := WithFirstDamage(g, me, t);
            h == g.(sumTeamHealthPercent := h.sumTeamHealthPercent, sumEnemyHealthPercent := h.sumEnemyHealthPercent)
  {
  }

  /** One more event. */
  lemma StepAddsUp(c: Setting, v: View, e: Event, f: TeamFight, events: seq<Event>)
    requires c.me in PLAYERS && f.participants <= PLAYERS && e.Ok() && events != []
    requires IsOpen(v.fights, c.matchDuration) && Step(c, v, e).Some?
    requires AddsUp(v.fights[|v.fights| - 1], f, c.me, events)
    ensures |Step(c, v, e).value.fights| == |v.fights|
    ensures AddsUp(Step(c, v, e).value.fights[|v.fights| - 1], f, c.me, events + [e])
  {
    hide Step, WithDamage, Joiners, Fallen, DamageAddsUp, TeamID, EnemyTeamID;
    var g := v.fights[|v.fights| - 1];
    OpenStep(c, v, e);
    FallenGrow(events, e, f.participants, TeamID(c.me));
    FallenGrow(events, e, f.participants, EnemyTeamID(c.me));
    match e
    case Hit(t, _) =>
      HitAddsUp(g, f, c.me, events, e);
      OnlyDamage(g, c.me, t);
    case Death(p, _, _) =>
      OtherAddsUp(g, f, c.me, events, e);
      TwoTeams(c.me, p);
      DeathChanges(g, f, c.me, events, p);
      FiguresAlone(g, WithDeath(g, c.me, p), f, c.me, events + [e]);
    case _ =>
      OtherAddsUp(g, f, c.me, events, e);
      FiguresAlone(g, Step(c, v, e).value.fights[|v.fights| - 1], f, c.me, events + [e]);
  }

  lemma DeathChanges(g: TeamFight, f: TeamFight, me: int, events: seq<Event>, p: int)
    requires me in PLAYERS && p in PLAYERS && g.participants == f.participants
    ensures var h, involved := WithDeath(g, me, p), p in g.participants + g.influencers;
            && h == g.(teamKills := h.teamKills, teamDeaths := h.teamDeaths)
            && h.teamKills == (g.teamKills + if involved && TeamID(p) == EnemyTeamID(me) then {p} else {})
            && h.teamDeaths == (g.teamDeaths + if involved && TeamID(p) == TeamID(me) then {p} else {})
  {
    TwoTeams(me, p);
  }

  lemma FiguresAlone(g: TeamFight, h: TeamFight, f: TeamFight, me: int, events: seq<Event>)
    requires DamageAddsUp(g, f, me, events)
    requires h == g.(end := h.end, netGoldDiff := h.netGoldDiff, teamKills := h.teamKills, teamDeaths := h.teamDeaths)
    ensures DamageAddsUp(h, f, me, events)
  {
  }

  // ---------- The opening ----------

  /** At its opening nothing has been counted yet, apart from what the history tells. */
  ghost predicate IsBlank(f: TeamFight) {
    f.influencers == {} && f.teamKills == {} && f.teamDeaths == {} && f.damageDealt == map[]
    && f.enemyDamageTaken == map[]
  }

  lemma OpenedIsBlank(c: Setting, states: seq<Snapshot>, pID: int, start: real, triggerTime: real, wards: Wards)
    requires Opens(c, states, pID, start, triggerTime, wards).Opened?
    ensures IsBlank(Opens(c, states, pID, start, triggerTime, wards).fight)
  {
    hide Near, IsKnown, IsNearest, Around, OnTeam, CannotTell, AliveKnown;
  }

  lemma TriggerIsBlank(c: Setting, v: View, e: Event)
    requires Trigger(c, v, e).Opened?
    ensures IsBlank(Trigger(c, v, e).fight)
  {
    hide Opens, Hurting, IsBlank, ContinuousDamage.Add, ContinuousAttack.Add;
    match e
    case Hit(t, wards) => OpenedIsBlank(c, Hurting(v, t), t.victimID, SessionStart(v, e), t.seconds, wards);
    case Death(p, sec, wards) => OpenedIsBlank(c, v.states, p, SessionStart(v, e), sec, wards);
  }

  lemma FirstHealth(f: TeamFight, me: int, t: Damage, e: Event)
    requires me in PLAYERS && t.victimID in PLAYERS && e.Hit? && e.damage == t
    ensures var h := WithFirstDamage(f, me, t);
            && h.sumTeamHealthPercent == f.sumTeamHealthPercent - FirstLoss([e], TeamID(me))
            && h.sumEnemyHealthPercent == f.sumEnemyHealthPercent - FirstLoss([e], EnemyTeamID(me))
  {
    TwoTeams(me, t.victimID);
  }

  lemma NothingYet(g: TeamFight, f: TeamFight, me: int)
    requires IsBlank(f) && g.damageDealt == g.enemyDamageTaken == map[] && g.influencers == {}
    requires g.neutralDamageTaken == f.neutralDamageTaken && g.enemyNeutralDamageTaken == f.enemyNeutralDamageTaken
    ensures DamageAddsUp(g, f, me, []) && g.influencers == Joiners([], f.participants)
  {
  }

  lemma NoneFallen(group: set<int>, me: int)
    ensures Joiners([], group) == Fallen([], group, TeamID(me)) == Fallen([], group, EnemyTeamID(me)) == {}
  {
  }

  lemma FirstHitAddsUp(f: TeamFight, me: int, e: Event)
    requires me in PLAYERS && f.participants <= PLAYERS && e.Hit? && e.Ok() && IsBlank(f)
    ensures AddsUp(WithDamage(WithFirstDamage(f, me, e.damage), me, e.damage), f, me, [e])
  {
    hide WithDamage, WithFirstDamage, Joiners, Fallen, Total, DamageAddsUp, TeamID, EnemyTeamID, FirstLoss;
    NoneFallen(f.participants, me);
    var g := WithFirstDamage(f, me, e.damage);
    OnlyDamage(f, me, e.damage);
    OnlyDamage(g, me, e.damage);
    NothingYet(g, f, me);
    HitAddsUp(g, f, me, [], e);
    FirstHealth(f, me, e.damage, e);
    assert [] + [e] == [e];
    FallenGrow([], e, f.participants, TeamID(me));
    FallenGrow([], e, f.participants, EnemyTeamID(me));
  }

  lemma FirstDeathAddsUp(f: TeamFight, me: int, e: Event)
    requires me in PLAYERS && e.Death? && e.Ok() && IsBlank(f)
    ensures AddsUp(WithDeath(f, me, e.victimID), f, me, [e])
  {
    hide WithDeath, Joiners, Fallen, Total, DamageAddsUp, TeamID, EnemyTeamID;
    NoneFallen(f.participants, me);
    NothingYet(f, f, me);
    OtherAddsUp(f, f, me, [], e);
    DeathChanges(f, f, me, [], e.victimID);
    assert [] + [e] == [e];
    FallenGrow([], e, f.participants, TeamID(me));
    FallenGrow([], e, f.participants, EnemyTeamID(me));
    FiguresAlone(f, WithDeath(f, me, e.victimID), f, me, [e]);
  }

  lemma OpeningAddsUp(c: Setting, v: View, e: Event)
    requires c.me in PLAYERS && e.Ok() && Step(c, v, e).Some? && Trigger(c, v, e).Opened?
    ensures var w, f := Step(c, v, e).value, Trigger(c, v, e).fight;
            && |w.fights| == |v.fights| + 1 && f.participants <= PLAYERS
            && AddsUp(w.fights[|v.fights|], f, c.me, [e])
  {
    hide AfterDamage, AfterDeath, WithDamage, WithFirstDamage, WithDeath, AddsUp, Trigger, IsBlank;
    var f := Trigger(c, v, e).fight;
    TriggerIsBlank(c, v, e);
    OpeningBegins(c, v, e);
    match e
    case Hit(t, wards) =>
      HitOpens(c, v, t, wards);
      FirstHitAddsUp(f, c.me, e);
    case Death(_, _, _) =>
      DeathOpens(c, v, e);
      FirstDeathAddsUp(f, c.me, e);
    case _ => NoTrigger(c, v, e);
  }

  // ---------- Whole fights ----------

  ghost predicate IsOpenAfter(c: Setting, events: seq<Event>) {
    Run(c, events).Some? && IsOpen(Run(c, events).value.fights, c.matchDuration)
  }

  /** The first of the later events opens a fight, which is still open before the last of them. */
  ghost predicate IsFight(c: Setting, before: seq<Event>, during: seq<Event>) {
    && during != [] && Run(c, before).Some? && Run(c, before + during).Some?
    && Trigger(c, Run(c, before).value, during[0]).Opened?
    && forall k :: 1 <= k < |during| ==> IsOpenAfter(c, before + during[..k])
  }

  lemma OneEventMore(c: Setting, before: seq<Event>, during: seq<Event>)
    requires during != [] && Run(c, before + during).Some?
    ensures var front, e := during[..|during| - 1], during[|during| - 1];
            Run(c, before + front).Some? && Step(c, Run(c, before + front).value, e) == Run(c, before + during)
  {
    hide Step;
    var front, e := during[..|during| - 1], during[|during| - 1];
    assert before + during == before + front + [e];
    RunExtends(c, before + front, e);
  }

  /** Whatever happens in a fight, its figures are those at the opening and what the events since then add up to. This
      holds as long as the fight is open, and still does after the event that ends it. */
  lemma {:induction false} FiguresAddUp(c: Setting, before: seq<Event>, during: seq<Event>)
    requires c.me in PLAYERS && AllOk(during) && IsFight(c, before, during)
    ensures var v, fights := Run(c, before).value, Run(c, before + during).value.fights;
            |fights| == |v.fights| + 1 && AddsUp(fights[|v.fights|], Trigger(c, v, during[0]).fight, c.me, during)
  {
    hide Step, AddsUp, Trigger, Run;
    var v := Run(c, before).value;
    OneEventMore(c, before, during);
    if |during| == 1 {
      assert before + during[..0] == before && during == [during[0]];
      OpeningAddsUp(c, v, during[0]);
    } else {
      var front := during[..|during| - 1];
      assert forall k :: 1 <= k <= |front| ==> front[..k] == during[..k];
      assert front[..|front|] == front;
      FiguresAddUp(c, before, front);
      OpensWithPlayers(c, v, during[0], before, during);
      StepAddsUp(c, Run(c, before + front).value, during[|during| - 1], Trigger(c, v, during[0]).fight, front);
      assert front + [during[|during| - 1]] == during;
    }
  }

  lemma OpensWithPlayers(c: Setting, v: View, e: Event, before: seq<Event>, during: seq<Event>)
    requires c.me in PLAYERS && Trigger(c, v, e).Opened?
    ensures Trigger(c, v, e).fight.participants <= PLAYERS
  {
    hide Trigger;
    OpeningBegins(c, v, e);
  }

  lemma {:induction false} FightsGrow(c: Setting, events: seq<Event>, i: nat)
    requires c.me in PLAYERS && AllOk(events) && i <= |events| && Run(c, events).Some?
    ensures Run(c, events[..i]).Some? && |Run(c, events[..i]).value.fights| <= |Run(c, events).value.fights|
  {
    hide Step, ViewOk;
    if i == |events| {
      assert events[..i] == events;
    } else {
      var front := events[..|events| - 1];
      assert front[..i] == events[..i];
      FightsGrow(c, front, i);
      RunIsOk(c, front);
      StepIsOk(c, Run(c, front).value, events[|events| - 1]);
    }
  }

  /** When the last fight on record is open, it has been so since its opening. */
  lemma {:induction false} OpenSinceOpening(c: Setting, before: seq<Event>, during: seq<Event>)
    requires c.me in PLAYERS && AllOk(before + during) && during != [] && IsOpenAfter(c, before + during)
    requires Run(c, before).Some? && Trigger(c, Run(c, before).value, during[0]).Opened?
    requires |Run(c, before + during).value.fights| == |Run(c, before).value.fights| + 1
    ensures IsFight(c, before, during)
  {
    hide Step, Trigger, Run;
    var n, m := |Run(c, before).value.fights|, |during|;
    if m > 1 {
      var front, e := during[..m - 1], during[m - 1];
      OneEventMore(c, before, during);
      assert before + during == before + front + [e];
      OkSoFar(before + front, e);
      var u := Run(c, before + front).value;
      FirstStep(c, before, front);
      CountStep(c, before + front, e);
      if !IsOpen(u.fights, c.matchDuration) {
        ClosedStep(c, u, e);
      }
      OpenSinceOpening(c, before, front);
      forall k | 1 <= k < m
        ensures IsOpenAfter(c, before + during[..k])
      {
        if k == m - 1 {
        } else {
          assert front[..k] == during[..k];
        }
      }
    }
  }

  lemma OkSoFar(events: seq<Event>, e: Event)
    requires AllOk(events + [e])
    ensures AllOk(events)
  {
    assert forall i :: 0 <= i < |events| ==> (events + [e])[i] == events[i];
  }

  lemma CountStep(c: Setting, events: seq<Event>, e: Event)
    requires c.me in PLAYERS && AllOk(events + [e]) && Run(c, events + [e]).Some?
    ensures Run(c, events).Some? && |Run(c, events).value.fights| <= |Run(c, events + [e]).value.fights|
  {
    hide Step, Run;
    FightsGrow(c, events + [e], |events|);
    assert (events + [e])[..|events|] == events;
  }

  /** From its opening on, the fight is on record. */
  lemma FirstStep(c: Setting, before: seq<Event>, during: seq<Event>)
    requires c.me in PLAYERS && AllOk(before + during) && during != [] && Run(c, before + during).Some?
    requires Run(c, before).Some? && Trigger(c, Run(c, before).value, during[0]).Opened?
    ensures |Run(c, before + during).value.fights| > |Run(c, before).value.fights|
  {
    hide Step, Trigger, Run;
    var first := before + [during[0]];
    assert (before + during)[..|before| + 1] == first;
    FightsGrow(c, before + during, |before| + 1);
    RunExtends(c, before, during[0]);
    TriggerOpens(c, Run(c, before).value, during[0]);
  }

  /** A fight that is over stays as it is for the rest of the match. */
  lemma {:induction false} ClosedFightsStay(c: Setting, events: seq<Event>, later: seq<Event>, i: nat)
    requires c.me in PLAYERS && AllOk(events + later) && Run(c, events).Some? && Run(c, events + later).Some?
    requires i < |Run(c, events).value.fights| && Run(c, events).value.fights[i].end != c.matchDuration
    ensures i < |Run(c, events + later).value.fights|
    ensures Run(c, events + later).value.fights[i] == Run(c, events).value.fights[i]
  {
    hide Step, ViewOk, Run;
    if later == [] {
      assert events + later == events;
    } else {
      var front, e := later[..|later| - 1], later[|later| - 1];
      OneEventMore(c, events, later);
      assert events + later == events + front + [e];
      OkSoFar(events + front, e);
      ClosedFightsStay(c, events, front, i);
      RunIsOk(c, events + front);
      assert e == (events + later)[|events + later| - 1];
      StepIsOk(c, Run(c, events + front).value, e);
    }
  }

  /** Percentages are rounded to the nearest whole one, halves upwards. */
  lemma RoundIsNearest(x: real)
    ensures Round(x) as real - 0.5 <= x < Round(x) as real + 0.5
  {
  }

  /** Damage that a turret or a monster did counts in the figures of a fight that opens over the time of its
      snapshot. */
  lemma {:induction false} NotedDamageCounts(
    states: seq<Snapshot>, i: nat, t: Damage, from: real, to: real, p: int)
    requires i < |states|
    ensures NeutralDamage(states[i := Hurt(states[i], t)], from, to, p) ==
            NeutralDamage(states, from, to, p)
            + if p == t.victimID && from <= states[i].seconds <= to then t.percent else 0.0
  {
    var n := |states| - 1;
    var after := states[i := Hurt(states[i], t)];
    if i == n {
      assert after[..n] == states[..n];
    } else {
      NotedDamageCounts(states[..n], i, t, from, to, p);
      assert after[..n] == states[..n][i := Hurt(states[i], t)];
    }
  }

  // ---------- Which side is which ----------

  /** The members of a group who play with, or against, somebody. */
  function With(group: set<int>, me: int): set<int> {
    set p <- group | TeamID(p) == TeamID(me)
  }

  function Against(group: set<int>, me: int): set<int> {
    set p <- group | TeamID(p) == EnemyTeamID(me)
  }

  /** At the opening the figures of the team are those of the participants who play with the tracked player, and the
      figures of the enemy those of the participants who play against him. */
  lemma SidesAtOpening(
    c: Setting, states: seq<Snapshot>, ds: Snapshot, group: set<int>, pID: int, start: real, time: real, wards: Wards)
    requires c.me in PLAYERS && group <= PLAYERS && Against(group, c.me) != {}
    requires group - OnTeam(group, TeamID(c.me)) != {}
    ensures
      var f := Recorded(c, states, ds, group, pID, start, time, wards);
      && f.sumTeamHealthPercent == SumOver(With(group, c.me), HealthOf(ds))
      && f.sumEnemyHealthPercent == SumOver(Against(group, c.me), HealthOf(ds))
      && f.teamGoldSpent == SumOver(With(group, c.me), SpentOf(ds))
      && f.enemyGoldSpent == SumOver(Against(group, c.me), SpentOf(ds))
      && f.neutralDamageTaken == RealSumOver(With(group, c.me), NeutralOf(states, start, time))
      && f.enemyNeutralDamageTaken == RealSumOver(Against(group, c.me), NeutralOf(states, start, time))
      && f.teamSummonerSpells == SumOver(With(group, c.me), SpellsReady(ds, time))
      && f.enemySummonerSpells == SumOver(Against(group, c.me), SpellsReady(ds, time))
      && f.alliesInVision.Keys == With(group, c.me) && f.enemiesInVision.Keys == Against(group, c.me)
      && f.enemyLevelAverage * |Against(group, c.me)| as real == SumOver(Against(group, c.me), LevelOf(ds)) as real
  {
    hide SumOver, RealSumOver, TeamGold, TeamID, EnemyTeamID, OnTeam, With, Against, HealthOf, SpentOf, LevelOf,
      NeutralOf, SpellsReady, InVision;
    TwoSides(group, c.me);
  }

  lemma TwoSides(group: set<int>, me: int)
    requires me in PLAYERS && group <= PLAYERS
    ensures With(group, me) == OnTeam(group, TeamID(me))
    ensures Against(group, me) == group - OnTeam(group, TeamID(me))
  {
    hide TeamID, EnemyTeamID;
    forall p | p in group
      ensures TeamID(p) == TeamID(me) <==> TeamID(p) != EnemyTeamID(me)
    {
      TwoTeams(me, p);
    }
  }

  /** A snapshot in which one player owns more gold. */
  function Richer(s: Snapshot, p: int, gold: int): Snapshot {
    s.(goldAmount := s.goldAmount[p := Amount(s.goldAmount, p) + gold])
  }

  lemma {:induction false} RicherTeam(s: Snapshot, p: int, gold: int, team: int, friendly: bool, n: nat)
    ensures TeamGold(Richer(s, p, gold), team, friendly, n) ==
            TeamGold(s, team, friendly, n) + if 1 <= p <= n && (TeamID(p) == team) == friendly then gold else 0
  {
    hide TeamID;
    if n > 0 {
      RicherTeam(s, p, gold, team, friendly, n - 1);
    }
  }

  /** At the opening the gold difference is zero. */
  lemma NoGainYet(
    c: Setting, states: seq<Snapshot>, ds: Snapshot, group: set<int>, pID: int, start: real, time: real, wards: Wards,
    v: View, seconds: real)
    requires group - OnTeam(group, TeamID(c.me)) != {}
    ensures Reviewed(Recorded(c, states, ds, group, pID, start, time, wards), ds, v, seconds, c.me).netGoldDiff == 0
  {
    hide SumOver, RealSumOver, TeamGold, TeamID, OnTeam, InVision, LastHit, GoesOn;
  }

  /** What a player of the team gains during a fight raises its gold difference, and what an enemy gains lowers it. */
  lemma GoldOfASide(f: TeamFight, s: Snapshot, v: View, seconds: real, me: int, p: int, gold: int)
    requires me in PLAYERS && p in PLAYERS
    ensures var before := Reviewed(f, s, v, seconds, me).netGoldDiff;
            var after := Reviewed(f, Richer(s, p, gold), v, seconds, me).netGoldDiff;
            after == if TeamID(p) == TeamID(me) then before + gold else before - gold
  {
    hide TeamGold, LastHit, GoesOn, TeamID, Richer;
    RicherTeam(s, p, gold, TeamID(me), true, 10);
    RicherTeam(s, p, gold, TeamID(me), false, 10);
  }
}
