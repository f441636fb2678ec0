/** From the events of a match to the time it took (lolstats-master/ingest/advanced_stats.go): the fights that
    the analysis recorded are put into the timeline just as they are. */
module AdvancedStats {
  import FA = FightAnalysis
  import FF = FightFailures
  import FO = FightOrder
  import FR = FightRuns
  import H = History
  import O = FightsOutOfOrder
  import S = Sight
  import opened Teams
  import TF = TeamFights
  import TM = TimeManagement
  import opened Wrappers

  /** The fights, as the timeline sees them. */
  function ToFights(fights: seq<TF.TeamFight>): (r: seq<TM.Fight>)
    ensures |r| == |fights|
    ensures forall i :: 0 <= i < |fights| ==> r[i] == TM.Fight(fights[i].begin, fights[i].end, fights[i].participants)
  {
    seq(|fights|, i requires 0 <= i < |fights| => TM.Fight(fights[i].begin, fights[i].end, fights[i].participants))
  }

  lemma InOrderMeansOrdered(fights: seq<TF.TeamFight>)
    ensures TM.FightsOrdered(ToFights(fights)) <==> FO.InOrder(fights)
  {
    var r := ToFights(fights);
    if TM.FightsOrdered(r) {
      forall i | 0 <= i < |fights|
        ensures fights[i].begin <= fights[i].end
      {
        assert r[i].begin <= r[i].end;
      }
      forall i, j | 0 <= i < j < |fights|
        ensures fights[i].begin <= fights[j].begin
      {
        assert r[i].begin <= r[j].begin;
      }
    }
  }

  /** The analysis hands ordered fights to the timeline exactly when no fight opened whose trigger was first hit
      before the last fight began, and none ended before it began. */
  lemma {:induction false} FightsAreOrderedExactly(c: TF.Setting, events: seq<FR.Event>)
    requires c.me in H.PLAYERS && FO.InDuration(events, c.matchDuration) && FR.Run(c, events).Some?
    ensures TM.FightsOrdered(ToFights(FR.Run(c, events).value.fights)) <==> !exists i: nat :: FO.Disturbs(c, events, i)
  {
    hide *;
    FO.OrderedExactly(c, events);
    InOrderMeansOrdered(FR.Run(c, events).value.fights);
  }

  // ---------- One stream of events for both analyses ----------

  /** What happens in a match, as far as fights and the timeline are concerned. */
  datatype Event =
    | AttackMade(attackerID: int, targetID: int, targetType: string, slot: string, expires: real, at: real)
    | DamageDone(damage: TF.Damage, attackerType: string, wards: S.Wards)
    | StateReported(update: H.Update, areaName: string)
    | WardSet(participantID: int, at: real)
    | PlayerDied(victimID: int, at: real, wards: S.Wards)
    | LevelGained(participantID: int, at: real)
    | TurretLost(turretID: int, at: real)
  {
    /** Reports, deaths and summoner spells are of the ten players. */
    predicate Ok() {
      match this
      case AttackMade(attackerID, _, _, slot, _, _) => TF.IsSummonerSlot(slot) ==> attackerID in H.PLAYERS
      case StateReported(u, _) => u.participantID in H.PLAYERS
      case PlayerDied(p, _, _) => p in H.PLAYERS
      case _ => true
    }

    function Time(): real {
      match this
      case DamageDone(t, _, _) => t.seconds
      case StateReported(u, _) => u.seconds
      case _ => at
    }
  }

  /** Damage of a champion to an enemy, of a turret or of an epic monster. */
  predicate IsSignificant(t: TF.Damage, attackerType: string) {
    && t.victimID in H.PLAYERS
    && ((t.attackerID in H.PLAYERS && TeamID(t.victimID) != TeamID(t.attackerID))
        || attackerType == ACTOR_TURRET || TM.IsBaronOrHerald(t.attackerID) || TM.IsDragon(t.attackerID))
  }

  /** What the team fight analysis gets of an event. */
  function ForFights(e: Event): seq<FR.Event> {
    match e
    case AttackMade(attackerID, _, _, slot, expires, at) => [FR.Other(TF.SpellCast(attackerID, slot, expires), at)]
    case DamageDone(t, attackerType, wards) => if IsSignificant(t, attackerType) then [FR.Hit(t, wards)] else []
    case StateReported(u, _) => [FR.Report(u)]
    case WardSet(_, _) => []
    case PlayerDied(p, at, wards) => [FR.Death(p, at, wards)]
    case LevelGained(p, at) => [FR.Other(TF.LevelUp(p), at)]
    case TurretLost(turretID, at) => [FR.Other(TF.TurretKill(turretID), at)]
  }

  /** What the timeline of a player gets of an event. */
  function ForTimeline(e: Event, me: int): seq<TM.Event> {
    match e
    case AttackMade(attackerID, targetID, targetType, _, _, at) =>
      if attackerID == me then [TM.Attack(at, targetID, targetType)] else []
    case DamageDone(t, attackerType, _) =>
      if t.victimID == me && me in H.PLAYERS then [TM.DamageTaken(t.seconds, t.attackerID, attackerType)] else []
    case StateReported(u, areaName) =>
      if u.participantID == me then [TM.StateUpdate(u.seconds, areaName, u.health)] else []
    case WardSet(p, at) => if p == me then [TM.WardPlaced(at)] else []
    case PlayerDied(p, at, _) => if p == me then [TM.Death(at)] else []
    case LevelGained(_, _) => []
    case TurretLost(_, _) => []
  }

  function FightEvents(events: seq<Event>): seq<FR.Event> {
    if events == [] then [] else FightEvents(events[..|events| - 1]) + ForFights(events[|events| - 1])
  }

  function Activities(events: seq<Event>, me: int): seq<TM.Event> {
    if events == [] then [] else Activities(events[..|events| - 1], me) + ForTimeline(events[|events| - 1], me)
  }

  ghost predicate TimeOrdered(events: seq<Event>) {
    forall i, j :: 0 <= i < j < |events| ==> events[i].Time() <= events[j].Time()
  }

  /** Leaving out events keeps the order of the others. */
  lemma {:induction false} ActivitiesAreOrdered(events: seq<Event>, me: int, now: real)
    requires TimeOrdered(events) && (events != [] ==> events[|events| - 1].Time() <= now)
    ensures TM.TimeOrdered(Activities(events, me))
    ensures forall i :: 0 <= i < |Activities(events, me)| ==> Activities(events, me)[i].sec <= now
  {
    if events != [] {
      var front, last := events[..|events| - 1], events[|events| - 1];
      ActivitiesAreOrdered(front, me, last.Time());
      var before, more := Activities(front, me), ForTimeline(last, me);
      assert forall i :: 0 <= i < |more| ==> |more| == 1 && more[i].sec == last.Time();
      assert Activities(events, me) == before + more;
    }
  }

  /** The timeline of a player is made of what he does and of what happens to him, all of it. */
  lemma {:induction false} TimelineIsOwn(events: seq<Event>, me: int, a: TM.Event)
    requires me in H.PLAYERS
    ensures a in Activities(events, me) <==> exists e <- events :: IsSeenAs(e, me, a)
  {
    if events != [] {
      var front, last := events[..|events| - 1], events[|events| - 1];
      TimelineIsOwn(front, me, a);
      assert events == front + [last];
      assert a in ForTimeline(last, me) <==> IsSeenAs(last, me, a);
    }
  }

  predicate IsSeenAs(e: Event, me: int, a: TM.Event) {
    match a
    case Attack(sec, id, kind) =>
      e.AttackMade? && e.attackerID == me && e.targetID == id && e.targetType == kind && e.at == sec
    case DamageTaken(sec, id, kind) =>
      e.DamageDone? && e.damage.victimID == me && e.damage.attackerID == id && e.attackerType == kind
      && e.damage.seconds == sec
    case StateUpdate(sec, areaName, health) =>
      e.StateReported? && e.update.participantID == me && e.update.seconds == sec && e.update.health == health
      && e.areaName == areaName
    case WardPlaced(sec) => e.WardSet? && e.participantID == me && e.at == sec
    case Death(sec) => e.PlayerDied? && e.victimID == me && e.at == sec
  }

  /** The team fights get everything but wards, and of the damage to the ten players what enemies, turrets and epic
      monsters do. */
  lemma {:induction false} FightsGetWhatMatters(events: seq<Event>, a: FR.Event)
    ensures a in FightEvents(events) <==> exists e <- events :: IsToldAs(e, a)
  {
    if events != [] {
      var front, last := events[..|events| - 1], events[|events| - 1];
      FightsGetWhatMatters(front, a);
      assert events == front + [last];
      assert a in ForFights(last) <==> IsToldAs(last, a);
    }
  }

  ghost predicate IsToldAs(e: Event, a: FR.Event) {
    match a
    case Report(u) => e.StateReported? && e.update == u
    case Hit(t, wards) =>
      && e.DamageDone? && e.damage == t && e.wards == wards && 1 <= t.victimID <= 10
      && ((1 <= t.attackerID <= 10 && (t.attackerID <= 5 <==> t.victimID > 5))
          || e.attackerType == "turret" || 300 <= t.attackerID <= 303)
    case Death(p, sec, wards) => e.PlayerDied? && e.victimID == p && e.at == sec && e.wards == wards
    case Other(LevelUp(p), sec) => e.LevelGained? && e.participantID == p && e.at == sec
    case Other(SpellCast(p, slot, expires), sec) =>
      e.AttackMade? && e.attackerID == p && e.slot == slot && e.expires == expires && e.at == sec
    case Other(TurretKill(t), sec) => e.TurretLost? && e.turretID == t && e.at == sec
  }

  lemma {:induction false} FightEventsAreOrdered(events: seq<Event>, now: real)
    requires TimeOrdered(events) && (events != [] ==> events[|events| - 1].Time() <= now)
    ensures FA.TimeOrdered(FightEvents(events))
    ensures forall i :: 0 <= i < |FightEvents(events)| ==> FightEvents(events)[i].Time() <= now
  {
    if events != [] {
      var front, last := events[..|events| - 1], events[|events| - 1];
      FightEventsAreOrdered(front, last.Time());
      var before, more := FightEvents(front), ForFights(last);
      assert forall i :: 0 <= i < |more| ==> |more| == 1 && more[i].Time() == last.Time();
      assert FightEvents(events) == before + more;
    }
  }

  lemma {:induction false} FightEventsAreOk(events: seq<Event>)
    requires forall e <- events :: e.Ok()
    ensures FR.AllOk(FightEvents(events))
  {
    if events != [] {
      var front, last := events[..|events| - 1], events[|events| - 1];
      FightEventsAreOk(front);
      assert last in events && last.Ok();
      assert forall i :: 0 <= i < |ForFights(last)| ==> ForFights(last)[i].Ok();
    }
  }

  /** How long a match took: until the last event that is not a report. */
  function MatchDuration(events: seq<Event>): real {
    if events == [] then 0.0
    else
      var last := events[|events| - 1];
      if last.StateReported? then MatchDuration(events[..|events| - 1]) else last.Time()
  }

  /** In a match in order nobody is hit after its end. */
  lemma {:induction false} NobodyIsHitLater(events: seq<Event>, duration: real)
    requires TimeOrdered(events) && 0.0 <= duration && MatchDuration(events) <= duration
    ensures FO.InDuration(FightEvents(events), duration)
  {
    if events != [] {
      var front, last := events[..|events| - 1], events[|events| - 1];
      assert FightEvents(events) == FightEvents(front) + ForFights(last);
      if last.StateReported? {
        NobodyIsHitLater(front, duration);
      } else {
        FightEventsAreOrdered(events, last.Time());
      }
    }
  }

  /** From the events of a match in their order to the time it took. The reported frames are determined by the
      events, and as long as nothing disturbs the order of the fights they are in order and apart. During a
      match this fails exactly when the fold of the fights does. */
  method TimeDetail(c: TF.Setting, events: seq<Event>) returns (res: seq<TM.Frame>, ok: bool)
    requires c.me in H.PLAYERS && TimeOrdered(events) && forall e <- events :: e.Ok()
    ensures ok ==> FR.Run(c, FightEvents(events)).Some?
    ensures FF.InMatch(FightEvents(events)) ==> (ok <==> FR.Run(c, FightEvents(events)).Some?)
    ensures ok ==>
              res == TM.Report(
                TM.AfterEvents(Activities(events, c.me), TeamID(c.me)).frames,
                ToFights(FR.Run(c, FightEvents(events)).value.fights), c.me)
    ensures ok && 0.0 <= c.matchDuration && MatchDuration(events) <= c.matchDuration ==>
              (!exists i: nat :: FO.Disturbs(c, FightEvents(events), i)) ==> TM.Chronological(res)
  {
    hide FR.Run, FO.InDuration, FO.Disturbs, TM.Report, TM.AfterEvents, TM.FightsOrdered, TM.Chronological,
      FA.ReviewFailsAt,
      TF.FightsOk, FR.AllGoldOk, FA.ComesTooEarly, FA.CompleteFirst, FF.InMatch, ToFights, TimeOrdered, MatchDuration;
    var fightEvents, activities := FightEvents(events), Activities(events, c.me);
    FightEventsAreOk(events);
    if events != [] {
      ActivitiesAreOrdered(events, c.me, events[|events| - 1].Time());
      FightEventsAreOrdered(events, events[|events| - 1].Time());
    }
    var a := FA.Analyse(c, fightEvents);
    if a == null {
      return [], false;
    }
    if 0.0 <= c.matchDuration && MatchDuration(events) <= c.matchDuration
       && !(exists i: nat :: FO.Disturbs(c, fightEvents, i)) {
      NobodyIsHitLater(events, c.matchDuration);
      FightsAreOrderedExactly(c, fightEvents);
    }
    res := TM.TimeDetail(c.me, activities, ToFights(a.fights));
    ok := true;
  }

  // ---------- A match with a fight that is not reported ----------

  lemma OneMore(events: seq<Event>, e: Event, me: int)
    ensures FightEvents(events + [e]) == FightEvents(events) + ForFights(e)
    ensures Activities(events + [e], me) == Activities(events, me) + ForTimeline(e, me)
  {
    assert (events + [e])[..|events|] == events;
  }

  /** The first `n` players arrive in the middle. */
  function Arrivals(n: nat): seq<Event> {
    if n == 0 then [] else Arrivals(n - 1) + [StateReported(O.Seen(n, 1.0).update, "mid")]
  }

  lemma {:induction false} ArrivalsAre(n: nat)
    requires n <= 10
    ensures FightEvents(Arrivals(n)) == O.Arrivals(n)
    ensures Activities(Arrivals(n), 1) == if n == 0 then [] else [TM.StateUpdate(1.0, "mid", 1.0)]
    ensures FineUntil(Arrivals(n), 1.0)
  {
    hide FineUntil, FightEvents, Activities;
    if n == 0 {
      NothingIsFine();
    } else {
      var e := StateReported(O.Seen(n, 1.0).update, "mid");
      ArrivalsAre(n - 1);
      OneMore(Arrivals(n - 1), e, 1);
      FineGrows(Arrivals(n - 1), e, 1.0);
    }
  }

  lemma NothingIsFine()
    ensures FightEvents([]) == [] && Activities([], 1) == [] && FineUntil([], 1.0)
  {
  }

  /** Events in order, of the ten players, and none later than a moment. */
  ghost predicate FineUntil(events: seq<Event>, now: real) {
    TimeOrdered(events) && (forall e <- events :: e.Ok()) && forall i :: 0 <= i < |events| ==> events[i].Time() <= now
  }

  lemma FineGrows(events: seq<Event>, e: Event, now: real)
    requires FineUntil(events, now) && e.Ok() && now <= e.Time()
    ensures FineUntil(events + [e], e.Time())
  {
    var more := events + [e];
    hide Event.Ok, Event.Time;
    forall i | 0 <= i < |events|
      ensures more[i].Time() <= e.Time()
    {
      assert more[i] == events[i];
    }
    forall i, j | 0 <= i < j < |more|
      ensures more[i].Time() <= more[j].Time()
    {
      assert j < |events| ==> more[i] == events[i] && more[j] == events[j];
    }
  }

  /** The match whose second fight begins first, in which the tracked player farms at its end. */
  function Farming(): Event {
    AttackMade(1, 0, ACTOR_MINION, "Q", 0.0, 60.0)
  }

  function Fighting(): seq<Event> {
    [DamageDone(TF.Damage(11.0, 6, 1, 5.0), "hero", O.NoWards()),
     DamageDone(TF.Damage(13.0, 6, 1, 5.0), "hero", O.NoWards()),
     PlayerDied(6, 14.0, O.NoWards()), StateReported(O.Seen(1, 20.0).update, "mid"), PlayerDied(7, 21.0, O.NoWards())]
  }

  function Match(): seq<Event> {
    Arrivals(10) + Fighting() + [Farming()]
  }

  lemma FightingTimes()
    ensures |Fighting()| == 5 && Fighting()[0].Time() >= 1.0 && forall e <- Fighting() :: e.Ok()
    ensures TimeOrdered(Fighting()) && Fighting()[4].Time() == 21.0
  {
  }

  /** More events in order, the first of them not before `now`. */
  lemma {:induction false} FineGoesOn(events: seq<Event>, more: seq<Event>, now: real)
    requires FineUntil(events, now) && (forall e <- more :: e.Ok()) && TimeOrdered(more)
    requires more != [] && now <= more[0].Time()
    ensures FineUntil(events + more, more[|more| - 1].Time())
  {
    hide FineUntil, Event.Ok, Event.Time;
    var n := |more| - 1;
    assert events + more == events + more[..n] + [more[n]];
    if n > 0 {
      FineGoesOn(events, more[..n], now);
      FineGrows(events + more[..n], more[n], more[n - 1].Time());
    } else {
      assert events + more[..0] == events;
      FineGrows(events, more[0], now);
    }
  }

  lemma FightingSoFar()
    ensures FineUntil(Arrivals(10) + Fighting(), 21.0)
  {
    hide FineUntil, Arrivals, Fighting, Event.Ok, Event.Time;
    ArrivalsAre(10);
    FightingTimes();
    FineGoesOn(Arrivals(10), Fighting(), 1.0);
  }

  lemma MatchIsFine()
    ensures TimeOrdered(Match()) && MatchDuration(Match()) == 60.0 && forall e <- Match() :: e.Ok()
  {
    hide Arrivals, TimeOrdered;
    FightingSoFar();
    FineGrows(Arrivals(10) + Fighting(), Farming(), 21.0);
  }

  lemma MatchParts()
    ensures FightEvents(Match()) == O.Match() + [FR.Other(TF.SpellCast(1, "Q", 0.0), 60.0)]
    ensures Activities(Match(), 1) ==
            [TM.StateUpdate(1.0, "mid", 1.0), TM.StateUpdate(20.0, "mid", 1.0), TM.Attack(60.0, 0, ACTOR_MINION)]
  {
    hide Arrivals, FightEvents, Activities, O.Arrivals, O.NoWards, FineUntil;
    ArrivalsAre(10);
    var a, f := Arrivals(10), Fighting();
    OneMore(a, f[0], 1);
    OneMore(a + [f[0]], f[1], 1);
    OneMore(a + [f[0]] + [f[1]], f[2], 1);
    OneMore(a + [f[0]] + [f[1]] + [f[2]], f[3], 1);
    OneMore(a + [f[0]] + [f[1]] + [f[2]] + [f[3]], f[4], 1);
    OneMore(a + [f[0]] + [f[1]] + [f[2]] + [f[3]] + [f[4]], Farming(), 1);
    assert Match() == a + [f[0]] + [f[1]] + [f[2]] + [f[3]] + [f[4]] + [Farming()];
  }

  lemma FarmingFrames()
    ensures TM.AfterEvents(
              [TM.StateUpdate(1.0, "mid", 1.0), TM.StateUpdate(20.0, "mid", 1.0), TM.Attack(60.0, 0, ACTOR_MINION)],
              BLUE_TEAM).frames ==
            [TM.Frame("", "mid", 1.0, 1.0), TM.Frame("farm", "mid", 60.0, 62.0)]
  {
    var events := [TM.StateUpdate(1.0, "mid", 1.0), TM.StateUpdate(20.0, "mid", 1.0), TM.Attack(60.0, 0, ACTOR_MINION)];
    assert events[..2][..1] == events[..1] && events[..1][..0] == [];
    var arrived := TM.Timeline("mid", "", false, [TM.Frame("", "mid", 1.0, 1.0)]);
    assert TM.AfterEvents(events[..1], BLUE_TEAM) == arrived;
    assert TM.AfterEvents(events[..2], BLUE_TEAM) == arrived;
    assert TM.DoingOnAttack(BLUE_TEAM, 0, ACTOR_MINION) == Some(TM.Doing("farm", 2.0));
    assert TM.WithFrame(arrived.frames, TM.Frame("farm", "mid", 60.0, 62.0)) ==
           arrived.frames + [TM.Frame("farm", "mid", 60.0, 62.0)];
  }

  lemma FightsOfMatch(c: TF.Setting)
    requires c.me == 1 && c.matchDuration == 60.0
    ensures FR.Run(c, FightEvents(Match())).Some?
    ensures var fights := ToFights(FR.Run(c, FightEvents(Match())).value.fights);
            && |fights| == 2 && fights[0].begin == 11.0 && fights[0].end == 13.0
            && fights[1].begin == 0.0 && fights[1].end == 60.0 && 1 in fights[0].participantIDs
            && 1 in fights[1].participantIDs
  {
    hide FR.Run, O.Match, Match, FightEvents, FO.InOrder;
    MatchParts();
    O.SecondBeginsFirst(c);
    FR.RunExtends(c, O.Match(), FR.Other(TF.SpellCast(1, "Q", 0.0), 60.0));
    FR.NothingChanges(c, FR.Run(c, O.Match()).value, TF.SpellCast(1, "Q", 0.0));
  }

  /** In this match two fights are recorded, from 11 to 13 seconds and from 0 to 60; the first ends before it
      begins in the timeline and is not reported. */
  lemma FirstFightIsLost(c: TF.Setting)
    requires c.me == 1 && c.matchDuration == MatchDuration(Match())
    ensures TimeOrdered(Match()) && (forall e <- Match() :: e.Ok()) && FR.Run(c, FightEvents(Match())).Some?
    ensures var fights := ToFights(FR.Run(c, FightEvents(Match())).value.fights);
            var frames := TM.AfterEvents(Activities(Match(), 1), TeamID(1)).frames;
            && |fights| == 2 && fights[0].begin == 11.0 && fights[0].end == 13.0
            && TM.Frame("fight", "mid", 11.0, 0.0) in TM.WithFighting(frames, fights, 1)
            && TM.Report(frames, fights, 1) ==
               [TM.Frame("fight", "mid", 0.0, 60.0), TM.Frame("farm", "mid", 60.0, 62.0)]
  {
    hide FR.Run, Match, FightEvents, Activities, TM.AfterEvents, TM.WithFighting, TM.Report, MatchDuration,
      TimeOrdered, ToFights;
    MatchIsFine();
    FightsOfMatch(c);
    MatchParts();
    FarmingFrames();
    var fights := ToFights(FR.Run(c, FightEvents(Match())).value.fights);
    TM.FarmingAfterFights(fights);
    TM.OnlyOneFightIsReported(fights);
  }
}
