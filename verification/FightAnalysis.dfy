/** The team fight analysis of a whole match (lolstats-master/ingest/advanced_stats.go, team_fights.go), and
    when it is sure to reach the end. */
module FightAnalysis {
  import opened FightFailures
  import opened FightRuns
  import opened History
  import opened Sight
  import opened TeamFights
  import opened Teams
  import opened Wrappers

  // ---------- Matches in which everybody is reported first ----------

  /** No report comes a quarter of a second after the first one before all ten players have been reported. */
  ghost predicate CompleteFirst(events: seq<Event>) {
    forall i :: 0 < i <= |events| && HasLaterReport(events[..i]) ==> Reporters(events[..i - 1]) == PLAYERS
  }

  ghost predicate KnownEverywhere(states: seq<Snapshot>) {
    forall i :: 0 <= i < |states| ==> AllKnown(states[i])
  }

  lemma QuietKeepsKnown(states: seq<Snapshot>, r: seq<Snapshot>)
    requires KnownEverywhere(states) && Quiet(states, r)
    ensures KnownEverywhere(r)
  {
  }

  lemma NotedIsKnown(states: seq<Snapshot>, u: Update)
    requires KnownEverywhere(states) && states != []
    ensures AllKnown(WithUpdate(Noting(states, u.seconds), u))
  {
    hide Copy, IsKnown, WithUpdate;
    UpdateKnows(Noting(states, u.seconds), u);
    CopyKnows(states[|states| - 1], u.seconds);
  }

  lemma ReportKeepsKnown(states: seq<Snapshot>, u: Update)
    requires Spaced(states) && WithinWindow(states) && KnownEverywhere(states) && states != []
    ensures KnownEverywhere(WithReport(states, u))
  {
    hide Spaced, WithinWindow, WithReport, AllKnown, WithUpdate, Noting;
    NotedIsKnown(states, u);
    var r := WithReport(states, u);
    forall i | 0 <= i < |r|
      ensures AllKnown(r[i])
    {
      ReportAddsOne(states, u, i);
    }
  }

  /** A single snapshot with everybody in it. */
  lemma MemoryIsComplete(events: seq<Event>, states: seq<Snapshot>)
    requires Remembers(events, states) && !HasLaterReport(events) && Reporters(events) == PLAYERS
    ensures KnownEverywhere(states)
  {
    hide IsKnown;
    assert 1 in PLAYERS;
  }

  lemma CompleteSoFar(events: seq<Event>)
    requires CompleteFirst(events) && events != []
    ensures CompleteFirst(events[..|events| - 1])
    ensures HasLaterReport(events) ==> Reporters(events[..|events| - 1]) == PLAYERS
  {
    hide HasLaterReport, Reporters;
    var front := events[..|events| - 1];
    assert events[..|events|] == events;
    forall i | 0 < i <= |front| && HasLaterReport(front[..i])
      ensures Reporters(front[..i - 1]) == PLAYERS
    {
      assert front[..i] == events[..i] && front[..i - 1] == events[..i - 1];
    }
  }

  lemma QuietReporters(events: seq<Event>)
    requires events != [] && !events[|events| - 1].Report?
    ensures Reporters(events) == Reporters(events[..|events| - 1])
  {
  }

  /** Once all ten are reported, every snapshot knows everybody. */
  lemma {:induction false} CompleteIsKnown(c: Setting, events: seq<Event>)
    requires c.me in PLAYERS && AllOk(events) && CompleteFirst(events) && Run(c, events).Some?
    requires Reporters(events) == PLAYERS
    ensures Run(c, events).value.states != [] && KnownEverywhere(Run(c, events).value.states)
  {
    hide Step, Quiet, Remembers, HasLaterReport, Reporters, KnownEverywhere, CompleteFirst, ViewOk, WithReport, Spaced,
      WithinWindow;
    RunRemembers(c, events);
    SomebodyIsNoted(events, Run(c, events).value.states);
    if !HasLaterReport(events) {
      MemoryIsComplete(events, Run(c, events).value.states);
    } else {
      LaterIsNotFirst(events);
      var n := |events| - 1;
      var v, e := Run(c, events[..n]).value, events[n];
      CompleteSoFar(events);
      CompleteIsKnown(c, events[..n]);
      RunIsOk(c, events[..n]);
      if e.Report? {
        StepReports(c, v, e.update, e);
        ReportKeepsKnown(v.states, e.update);
      } else {
        OtherStepsAreQuiet(c, v, e);
        QuietKeepsKnown(v.states, Step(c, v, e).value.states);
      }
    }
  }

  lemma LaterIsNotFirst(events: seq<Event>)
    requires HasLaterReport(events)
    ensures events != []
  {
  }

  lemma SomebodyIsNoted(events: seq<Event>, states: seq<Snapshot>)
    requires Remembers(events, states) && Reporters(events) == PLAYERS
    ensures states != []
  {
    hide IsKnown;
    assert 1 in PLAYERS;
  }

  lemma {:induction false} CompleteIsUsable(events: seq<Event>)
    requires AllOk(events) && CompleteFirst(events)
    ensures UsableAfter(events) <==> Reporters(events) == PLAYERS
  {
    hide Reporters;
    if HasLaterReport(events) {
      CompleteSoFar(events);
      ReportersArePlayers(events);
      MoreReporters(events);
    }
  }

  lemma MoreReporters(events: seq<Event>)
    requires events != []
    ensures Reporters(events[..|events| - 1]) <= Reporters(events)
  {
  }

  /** Where everybody is known, no trigger meets nil. */
  lemma KnownOpens(c: Setting, states: seq<Snapshot>, pID: int, start: real, triggerTime: real, wards: Wards)
    requires c.me in PLAYERS && pID in PLAYERS && KnownEverywhere(states)
    requires Closest(states, start).Some?
    ensures Opens(c, states, pID, start, triggerTime, wards) != NilRead
  {
    hide Near, IsNearest, Recorded, InVision, Around;
    if Closest(states, triggerTime).Some? {
      var ts := states[Closest(states, triggerTime).value];
      assert AllKnown(ts);
      AroundArePlayers(ts, pID);
      forall p | p in Around(ts, pID)
        ensures InVision(states, start, p, c.world, wards).Some?
      {
        KnownVision(states, start, p, c.world, wards);
      }
    }
  }

  lemma AroundArePlayers(s: Snapshot, pID: int)
    ensures Around(s, pID) <= PLAYERS
  {
  }

  lemma KnownReview(participants: set<int>, s: Snapshot, v: View, time: real)
    requires participants <= PLAYERS && AliveKnown(s)
    ensures !MayReadNil(participants, s, v, time)
  {
    hide ScanEnemies, JustActed;
    forall p | p in participants
      ensures !ReadsNil(p, s, v, time)
    {
      KnownScan(s, p, CHASE_DISTANCE, 1);
    }
  }

  lemma KnownTrigger(c: Setting, v: View, e: Event)
    requires c.me in PLAYERS && e.Ok() && (e.Hit? || e.Death?)
    requires KnownEverywhere(v.states) && (e.Hit? ==> Quiet(v.states, Hurting(v, e.damage)))
    requires Closest(if e.Hit? then Hurting(v, e.damage) else v.states, SessionStart(v, e)).Some?
    ensures Trigger(c, v, e) != NilRead
  {
    hide Opens, Closest, Hurting, KnownEverywhere, Quiet, ContinuousDamage.Add, ContinuousAttack.Add, IsSerious;
    match e
    case Hit(t, wards) =>
      QuietKeepsKnown(v.states, Hurting(v, t));
      KnownOpens(c, Hurting(v, t), t.victimID, SessionStart(v, e), t.seconds, wards);
    case Death(p, sec, wards) =>
      KnownOpens(c, v.states, p, SessionStart(v, e), sec, wards);
  }

  lemma SessionInMatch(v: View, e: Event)
    requires SessionsInMatch(v.damage) && IsMatchTime(e.Time())
    ensures IsMatchTime(SessionStart(v, e))
  {
    hide ContinuousDamage.Add, ContinuousAttack.Add;
    match e
    case Hit(t, _) => FedInMatch(v, t);
    case _ =>
  }

  /** When everybody is reported first, no trigger meets nil. */
  lemma {:induction false} CompleteTrigger(c: Setting, events: seq<Event>, e: Event)
    requires c.me in PLAYERS && AllOk(events + [e]) && InMatch(events + [e]) && CompleteFirst(events + [e])
    requires AllOk(events) && InMatch(events) && IsMatchTime(e.Time()) && e.Ok() && Run(c, events).Some?
    ensures Trigger(c, Run(c, events).value, e) != NilRead
  {
    hide Run, Quiet, Remembers, HasLaterReport, Reporters, UsableAfter, KnownEverywhere, CompleteFirst, StatesInMatch,
      SessionsInMatch, IsMatchTime, Closest, Trigger, Hurting, SessionStart;
    var v := Run(c, events).value;
    if Trigger(c, v, e) == NilRead {
      TriggerFinds(c, v, e);
      RunRemembers(c, events);
      RunInMatch(c, events);
      var more := events + [e];
      assert more[..|events|] == events;
      CompleteSoFar(more);
      CompleteIsUsable(events);
      CompleteIsUsable(more);
      QuietReporters(more);
      SessionInMatch(v, e);
      if e.Hit? {
        HurtingIsQuiet(v, e.damage);
        QuietKeepsMemory(events, e, v.states, Hurting(v, e.damage));
        QuietInMatch(v.states, Hurting(v, e.damage));
        FoundIffReady(more, Hurting(v, e.damage), e.Time());
        FoundIffReady(more, Hurting(v, e.damage), SessionStart(v, e));
      } else {
        FoundIffReady(events, v.states, e.Time());
        FoundIffReady(events, v.states, SessionStart(v, e));
      }
      CompleteIsKnown(c, events);
      KnownTrigger(c, v, e);
    }
  }

  /** Nor does any review. */
  lemma {:induction false} CompleteReview(c: Setting, events: seq<Event>, u: Update)
    requires c.me in PLAYERS && AllOk(events) && InMatch(events) && CompleteFirst(events)
    requires IsMatchTime(u.seconds) && u.participantID in PLAYERS && Run(c, events).Some?
    ensures !ReviewMayFail(c, Run(c, events).value, u)
  {
    hide Run, HasLaterReport, Reporters, UsableAfter, KnownEverywhere, CompleteFirst, Closest, Spaced, WithinWindow,
      MayReadNil, WithReport, IsMatchTime, AllKnown;
    var v := Run(c, events).value;
    if IsOpen(v.fights, c.matchDuration) {
      FightsNeedSight(c, events);
      CompleteIsUsable(events);
      CompleteIsKnown(c, events);
      RunIsOk(c, events);
      ReviewFinds(c, events, u);
      ReportKeepsKnown(v.states, u);
      OpenFightIsOk(c, v);
      KnownAt(WithReport(v.states, u), Closest(WithReport(v.states, u), u.seconds).value);
      KnownReview(v.fights[|v.fights| - 1].participants,
                  WithReport(v.states, u)[Closest(WithReport(v.states, u), u.seconds).value],
                  v, u.seconds);
    }
  }

  lemma KnownAt(states: seq<Snapshot>, i: nat)
    requires KnownEverywhere(states) && i < |states|
    ensures AliveKnown(states[i])
  {
    assert AllKnown(states[i]);
  }

  lemma {:induction false} CompleteMeetsNoNil(c: Setting, events: seq<Event>, i: nat)
    requires c.me in PLAYERS && AllOk(events) && InMatch(events) && CompleteFirst(events)
    ensures !MeetsNilAt(c, events, i)
  {
    hide Run, CompleteFirst, ReviewMayFail, ReviewMeetsNil, Trigger, TriggerReadsNil, IsMatchTime;
    if i < |events| && Run(c, events[..i]).Some? {
      var front, e := events[..i], events[i];
      assert events[..i + 1] == front + [e];
      CompleteUpTo(events, i + 1);
      CompleteUpTo(events, i);
      assert e.Ok() && IsMatchTime(e.Time());
      if e.Report? {
        CompleteReview(c, front, e.update);
        if ReviewMeetsNil(c, Run(c, front).value, e.update) {
          MeetingNilMayFail(c, Run(c, front).value, e.update);
        }
      } else {
        CompleteTrigger(c, front, e);
        TriggerIsNil(c, Run(c, front).value, e);
      }
    }
  }

  lemma MeetingNilMayFail(c: Setting, v: View, u: Update)
    requires ReviewMeetsNil(c, v, u)
    ensures ReviewMayFail(c, v, u)
  {
    hide Closest, WithReport, MayReadNil, GoesOn;
  }

  lemma CompleteUpTo(events: seq<Event>, i: nat)
    requires i <= |events| && CompleteFirst(events)
    ensures CompleteFirst(events[..i])
  {
    hide HasLaterReport, Reporters;
    forall j | 0 < j <= i && HasLaterReport(events[..i][..j])
      ensures Reporters(events[..i][..j - 1]) == PLAYERS
    {
      assert events[..i][..j] == events[..j] && events[..i][..j - 1] == events[..j - 1];
    }
  }

  /** Damage by a turret or a monster before all ten players have been reported. */
  ghost predicate ComesTooEarly(events: seq<Event>, i: nat) {
    i < |events| && IsNeutral(events[i]) && Reporters(events[..i]) != PLAYERS
  }

  /** When everybody is reported first, the program fails exactly when such damage comes too early. */
  lemma {:induction false} CompleteFailsExactly(c: Setting, events: seq<Event>)
    requires c.me in PLAYERS && AllOk(events) && InMatch(events) && CompleteFirst(events)
    ensures Run(c, events) == None <==> exists i: nat :: ComesTooEarly(events, i)
  {
    hide Run, MeetsNilAt, CompleteFirst, UsableAfter, Reporters, IsNeutral;
    FailsExactly(c, events);
    forall i: nat
      ensures !MeetsNilAt(c, events, i)
      ensures LosesDamage(events, i) <==> ComesTooEarly(events, i)
    {
      CompleteMeetsNoNil(c, events, i);
      if i < |events| {
        CompleteUpTo(events, i);
        CompleteIsUsable(events[..i]);
      }
    }
  }

  // ---------- Events in the order of their times ----------

  ghost predicate TimeOrdered(events: seq<Event>) {
    forall i, j :: 0 <= i < j < |events| ==> events[i].Time() <= events[j].Time()
  }

  ghost predicate NewestBy(states: seq<Snapshot>, now: real) {
    states != [] ==> states[|states| - 1].seconds <= now
  }

  lemma QuietStaysBy(states: seq<Snapshot>, r: seq<Snapshot>, before: real, now: real)
    requires NewestBy(states, before) && before <= now && Quiet(states, r)
    ensures NewestBy(r, now)
  {
  }

  lemma ReportStaysBy(states: seq<Snapshot>, u: Update, before: real)
    requires Spaced(states) && WithinWindow(states) && NewestBy(states, before) && before <= u.seconds
    ensures NewestBy(WithReport(states, u), u.seconds)
  {
    hide Spaced, WithinWindow, WithUpdate, Copy, WithReport;
    NewestReport(states, u);
    UpdateKnows(Noting(states, u.seconds), u);
    NextIsNow(states, u.seconds);
  }

  /** No snapshot is newer than the last event. */
  lemma {:induction false} RunIsBy(c: Setting, events: seq<Event>, now: real)
    requires c.me in PLAYERS && AllOk(events) && TimeOrdered(events) && Run(c, events).Some?
    requires events != [] ==> events[|events| - 1].Time() <= now
    ensures NewestBy(Run(c, events).value.states, now)
  {
    hide Step, Quiet, Spaced, WithinWindow, WithReport;
    if events != [] {
      var n := |events| - 1;
      var v, e := Run(c, events[..n]).value, events[n];
      RunIsBy(c, events[..n], e.Time());
      RunIsOk(c, events[..n]);
      if e.Report? {
        StepReports(c, v, e.update, e);
        ReportStaysBy(v.states, e.update, e.Time());
      } else {
        OtherStepsAreQuiet(c, v, e);
        QuietStaysBy(v.states, Step(c, v, e).value.states, e.Time(), now);
      }
    }
  }

  /** The living are known in the newest snapshot. */
  ghost predicate NewestKnown(states: seq<Snapshot>) {
    states != [] && AliveKnown(states[|states| - 1])
  }

  lemma QuietKeepsNewest(states: seq<Snapshot>, r: seq<Snapshot>)
    requires NewestKnown(states) && Quiet(states, r)
    ensures NewestKnown(r)
  {
    var n := |states| - 1;
    forall p | p in r[n].alive * PLAYERS
      ensures IsKnown(r[n], p)
    {
      assert p in states[n].alive * PLAYERS;
    }
  }

  lemma CopyKeepsAlive(s: Snapshot, seconds: real)
    ensures Copy(seconds, Some(s)).alive <= s.alive * PLAYERS
  {
  }

  lemma UpdateKeepsAlive(s: Snapshot, u: Update)
    requires AliveKnown(s)
    ensures AliveKnown(WithUpdate(s, u))
  {
    UpdateKnows(s, u);
    assert WithUpdate(s, u).alive <= s.alive + {u.participantID};
    hide IsKnown, WithUpdate;
    forall p | p in WithUpdate(s, u).alive * PLAYERS
      ensures IsKnown(WithUpdate(s, u), p)
    {
      assert p == u.participantID || p in s.alive * PLAYERS;
    }
  }

  lemma ReportKeepsNewest(states: seq<Snapshot>, u: Update)
    requires Spaced(states) && WithinWindow(states) && NewestKnown(states)
    ensures NewestKnown(WithReport(states, u))
  {
    hide Spaced, WithinWindow, WithUpdate, Copy, WithReport, IsKnown;
    NewestReport(states, u);
    var s := states[|states| - 1];
    CopyKeepsAlive(s, u.seconds);
    CopyKnows(s, u.seconds);
    UpdateKeepsAlive(Noting(states, u.seconds), u);
  }

  /** In order, what is nearest to the present is the newest snapshot. */
  lemma NowIsNewest(states: seq<Snapshot>, now: real)
    requires Spaced(states) && ReadyForFights(states) && StatesInMatch(states) && NewestBy(states, now)
             && IsMatchTime(now)
    ensures Closest(states, now) == Some(|states| - 1)
  {
    SpacedIsIncreasing(states);
    NewestIsClosest(states, now);
  }

  /** A trigger that opens a fight knows all the living. */
  lemma OpenedKnows(c: Setting, states: seq<Snapshot>, pID: int, start: real, triggerTime: real, wards: Wards)
    requires Opens(c, states, pID, start, triggerTime, wards).Opened?
    ensures Closest(states, triggerTime).Some? && AliveKnown(states[Closest(states, triggerTime).value])
  {
    hide Near, IsNearest, Around, CannotTell, AliveKnown, OnTeam;
  }

  lemma HitStates(c: Setting, v: View, t: Damage, wards: Wards)
    requires AfterDamage(c, v, t, wards).Some?
    ensures AfterDamage(c, v, t, wards).value.states == Hurting(v, t)
  {
    hide Closest, Struck, Hurt, ContinuousDamage.Add, ContinuousAttack.Add;
    if TeamID(t.attackerID) != 0 {
      StruckKeepsStates(c, Fed(v, t), t, wards);
    } else {
      StruckKeepsStates(c, Fed(v, t).(states := Hurting(v, t)), t, wards);
    }
  }

  lemma TriggerKnows(c: Setting, v: View, e: Event)
    requires Trigger(c, v, e).Opened? && Closest(Looking(v, e), e.Time()) == Some(|Looking(v, e)| - 1)
    ensures NewestKnown(Looking(v, e))
  {
    hide Closest, Opens, Hurting, AliveKnown, ContinuousDamage.Add, ContinuousAttack.Add;
    match e
    case Hit(t, wards) => OpenedKnows(c, Hurting(v, t), t.victimID, SessionStart(v, e), t.seconds, wards);
    case Death(p, sec, wards) => OpenedKnows(c, v.states, p, SessionStart(v, e), sec, wards);
  }

  lemma LookingIsWindow(c: Setting, v: View, e: Event)
    requires ViewOk(c, v)
    ensures Spaced(Looking(v, e))
  {
    hide Closest;
  }

  /** In order, a fight opens at the newest snapshot, in which all the living are known. */
  lemma {:induction false} OpeningKnows(c: Setting, events: seq<Event>, e: Event)
    requires c.me in PLAYERS && AllOk(events) && InMatch(events) && TimeOrdered(events + [e]) && Run(c, events).Some?
    requires AllOk(events + [e]) && IsMatchTime(e.Time()) && Trigger(c, Run(c, events).value, e).Opened?
    ensures NewestKnown(Looking(Run(c, events).value, e))
  {
    hide Run, Quiet, Remembers, UsableAfter, ReadyForFights, StatesInMatch, SessionsInMatch, IsMatchTime, Closest,
      Trigger,
      Hurting, NewestKnown, Spaced, ViewOk;
    var v := Run(c, events).value;
    RunIsOk(c, events);
    RunRemembers(c, events);
    RunInMatch(c, events);
    BeforeLast(events, e);
    RunIsBy(c, events, e.Time());
    TriggerFinds(c, v, e);
    LookingIsWindow(c, v, e);
    if e.Hit? {
      var more := events + [e];
      HurtingIsQuiet(v, e.damage);
      QuietKeepsMemory(events, e, v.states, Hurting(v, e.damage));
      QuietInMatch(v.states, Hurting(v, e.damage));
      QuietStaysBy(v.states, Hurting(v, e.damage), e.Time(), e.Time());
      ReportersArePlayers(more);
      FoundIffReady(more, Hurting(v, e.damage), e.Time());
      MemoryIsReady(more, Hurting(v, e.damage));
    } else {
      ReportersArePlayers(events);
      FoundIffReady(events, v.states, e.Time());
      MemoryIsReady(events, v.states);
    }
    NowIsNewest(Looking(v, e), e.Time());
    TriggerKnows(c, v, e);
  }

  lemma BeforeLast(events: seq<Event>, e: Event)
    requires TimeOrdered(events + [e])
    ensures TimeOrdered(events) && (events != [] ==> events[|events| - 1].Time() <= e.Time())
  {
    var more := events + [e];
    assert forall i :: 0 <= i < |events| ==> more[i] == events[i];
    assert more[|events|] == e;
  }

  /** In order, once a fight was recorded all the living are known in the newest snapshot. */
  lemma {:induction false} FightsKnow(c: Setting, events: seq<Event>)
    requires c.me in PLAYERS && AllOk(events) && InMatch(events) && TimeOrdered(events) && Run(c, events).Some?
    requires Run(c, events).value.fights != []
    ensures NewestKnown(Run(c, events).value.states)
  {
    hide AfterReport, AfterDamage, AfterDeath, AfterNote, Quiet, IsMatchTime, Trigger, Hurting, NewestKnown, Spaced,
      WithinWindow, FightsOk, WithReport, IsOpenedBy;
    if events != [] {
      var n := |events| - 1;
      var front, e := events[..n], events[n];
      assert events == front + [e];
      var v := Run(c, front).value;
      assert IsMatchTime(e.Time());
      TriggerOpens(c, v, e);
      if Trigger(c, v, e).Opened? {
        OpeningKnows(c, front, e);
        TriggerFinds(c, v, e);
        if e.Hit? {
          HitStates(c, v, e.damage, e.wards);
        } else {
          OtherStepsAreQuiet(c, v, e);
          QuietKeepsNewest(v.states, Step(c, v, e).value.states);
        }
      } else {
        FightsKnow(c, front);
        RunIsOk(c, front);
        if e.Report? {
          StepReports(c, v, e.update, e);
          ReportKeepsNewest(v.states, e.update);
        } else {
          OtherStepsAreQuiet(c, v, e);
          QuietKeepsNewest(v.states, Step(c, v, e).value.states);
        }
      }
    }
  }

  /** In order, no review meets nil. */
  lemma {:induction false} OrderedReview(c: Setting, events: seq<Event>, u: Update)
    requires c.me in PLAYERS && AllOk(events + [Report(u)]) && InMatch(events) && TimeOrdered(events + [Report(u)])
    requires AllOk(events) && IsMatchTime(u.seconds) && u.participantID in PLAYERS && Run(c, events).Some?
    ensures !ReviewMayFail(c, Run(c, events).value, u)
  {
    hide Run, Remembers, UsableAfter, ReadyForFights, StatesInMatch, SessionsInMatch, IsMatchTime, Closest, NewestKnown,
      Spaced, WithinWindow, WithReport, MayReadNil, FightsOk, AliveKnown;
    var v := Run(c, events).value;
    if IsOpen(v.fights, c.matchDuration) {
      var r, more := WithReport(v.states, u), events + [Report(u)];
      BeforeLast(events, Report(u));
      RunIsOk(c, events);
      RunRemembers(c, events);
      RunInMatch(c, events);
      FightsNeedSight(c, events);
      FightsKnow(c, events);
      RunIsBy(c, events, u.seconds);
      UsableStays(events, Report(u));
      ReportKeepsMemory(events, u, v.states);
      ReportersArePlayers(more);
      MemoryIsReady(more, r);
      ReportInMatch(v.states, u);
      WithReportIsWindow(v.states, u);
      ReportStaysBy(v.states, u, u.seconds);
      NowIsNewest(r, u.seconds);
      ReportKeepsNewest(v.states, u);
      NewestMeans(r);
      OpenFightIsOk(c, v);
      KnownReview(v.fights[|v.fights| - 1].participants, r[|r| - 1], v, u.seconds);
    }
  }

  lemma NewestMeans(states: seq<Snapshot>)
    requires NewestKnown(states)
    ensures states != [] && AliveKnown(states[|states| - 1])
  {
  }

  // ---------- A whole match ----------

  /** A review that can read through nil in some order of the participants. */
  ghost predicate ReviewFailsAt(c: Setting, events: seq<Event>, i: nat) {
    && i < |events| && events[i].Report? && Run(c, events[..i]).Some?
    && ReviewMayFail(c, Run(c, events[..i]).value, events[i].update)
  }

  lemma {:induction false} ReviewsAreSafe(c: Setting, events: seq<Event>, i: nat)
    requires c.me in PLAYERS && AllOk(events) && InMatch(events) && (TimeOrdered(events) || CompleteFirst(events))
    ensures !ReviewFailsAt(c, events, i)
  {
    hide Run, CompleteFirst, ReviewMayFail, IsMatchTime;
    if i < |events| && events[i].Report? && Run(c, events[..i]).Some? {
      var front, e := events[..i], events[i];
      assert e.Ok() && IsMatchTime(e.Time());
      if CompleteFirst(events) {
        CompleteUpTo(events, i);
        CompleteReview(c, front, e.update);
      } else {
        assert events[..i + 1] == front + [e];
        OrderedReview(c, front, e.update);
      }
    }
  }

  method Feed(a: TeamFightAnalysis, e: Event) returns (ok: bool)
    requires a.Valid() && e.Ok()
    modifies a
    ensures ok ==> a.Valid() && Step(a.setting, old(a.Now()), e) == Some(a.Now())
    ensures !ok ==> Step(a.setting, old(a.Now()), e) == None
                    || (e.Report? && ReviewMayFail(a.setting, old(a.Now()), e.update))
  {
    hide ViewOk, AfterReport, AfterDamage, AfterDeath, AfterNote, ReviewMayFail;
    match e
    case Report(u) => ok := a.AddStateUpdate(u);
    case Hit(t, wards) => ok := a.AddDamage(t, wards);
    case Death(victimID, seconds, wards) => ok := a.AddDeath(victimID, seconds, wards);
    case Other(note, _) =>
      a.AddNote(note);
      ok := true;
  }

  /** The analysis of any events in any order: null when the program fails on the way. Only when events are
      out of order can it depend on the order of map entries whether it does. */
  method Analyse(c: Setting, events: seq<Event>) returns (a: TeamFightAnalysis?)
    requires c.me in PLAYERS && AllOk(events)
    ensures a != null ==> fresh(a) && a.setting == c && Run(c, events) == Some(a.Now())
    ensures a == null ==> Run(c, events) == None || exists i: nat :: ReviewFailsAt(c, events, i)
    ensures InMatch(events) && (TimeOrdered(events) || CompleteFirst(events)) ==>
              (a == null <==> Run(c, events) == None)
    ensures InMatch(events) && CompleteFirst(events) ==> (a == null <==> exists i: nat :: ComesTooEarly(events, i))
    ensures a != null ==> FightsOk(a.fights, c)
    ensures a != null ==> Spaced(a.recentStates) && |a.recentStates| <= 121
    ensures a != null ==> AllGoldOk(a.recentStates, events)
  {
    hide Run, Step, ViewOk, InMatch, TimeOrdered, CompleteFirst, ReviewMayFail, Spaced, FightsOk, AllGoldOk,
      ComesTooEarly;
    a := new TeamFightAnalysis(c);
    RunStarts(c);
    for i := 0 to |events|
      invariant a != null && fresh(a) && a.Valid() && a.setting == c
      invariant Run(c, events[..i]) == Some(a.Now())
    {
      RunSteps(c, events, i);
      var ok := Feed(a, events[i]);
      if !ok {
        assert Run(c, events[..i + 1]) == None || ReviewFailsAt(c, events, i);
        Stops(c, events, i);
        return null;
      }
    }
    assert events[..|events|] == events;
    Ends(c, events);
  }

  lemma RunStarts(c: Setting)
    ensures Run(c, []) == Some(Start())
  {
  }

  lemma RunSteps(c: Setting, events: seq<Event>, i: nat)
    requires i < |events| && Run(c, events[..i]).Some?
    ensures Run(c, events[..i + 1]) == Step(c, Run(c, events[..i]).value, events[i])
  {
    hide Step;
    assert events[..i + 1][..i] == events[..i];
  }

  /** What it means to stop early. */
  lemma {:induction false} Stops(c: Setting, events: seq<Event>, i: nat)
    requires c.me in PLAYERS && AllOk(events) && i < |events|
    requires Run(c, events[..i + 1]) == None || ReviewFailsAt(c, events, i)
    ensures Run(c, events) == None || exists i: nat :: ReviewFailsAt(c, events, i)
    ensures InMatch(events) && (TimeOrdered(events) || CompleteFirst(events)) ==> Run(c, events) == None
    ensures InMatch(events) && CompleteFirst(events) ==> exists i: nat :: ComesTooEarly(events, i)
  {
    hide Run, InMatch, TimeOrdered, CompleteFirst, ReviewFailsAt, ComesTooEarly;
    if Run(c, events).Some? {
      RunsThrough(c, events, i + 1);
    }
    if InMatch(events) && (TimeOrdered(events) || CompleteFirst(events)) {
      ReviewsAreSafe(c, events, i);
    }
    if InMatch(events) && CompleteFirst(events) {
      CompleteFailsExactly(c, events);
    }
  }

  /** What it means to reach the end. */
  lemma {:induction false} Ends(c: Setting, events: seq<Event>)
    requires c.me in PLAYERS && AllOk(events) && Run(c, events).Some?
    ensures FightsOk(Run(c, events).value.fights, c)
    ensures Spaced(Run(c, events).value.states) && |Run(c, events).value.states| <= 121
    ensures AllGoldOk(Run(c, events).value.states, events)
    ensures InMatch(events) && CompleteFirst(events) ==> !exists i: nat :: ComesTooEarly(events, i)
  {
    hide Run, InMatch, CompleteFirst, ComesTooEarly, AllGoldOk, Spaced, WithinWindow;
    RunIsOk(c, events);
    WindowIsSmall(Run(c, events).value.states);
    RunAccountsForGold(c, events);
    if InMatch(events) && CompleteFirst(events) {
      CompleteFailsExactly(c, events);
    }
  }

  lemma OkSoFar(events: seq<Event>, e: Event)
    requires AllOk(events + [e]) && InMatch(events + [e])
    ensures AllOk(events) && InMatch(events) && e.Ok() && IsMatchTime(e.Time())
  {
    var more := events + [e];
    hide IsMatchTime;
    assert more[|events|] == e;
    assert forall i :: 0 <= i < |events| ==> more[i] == events[i];
  }
}
