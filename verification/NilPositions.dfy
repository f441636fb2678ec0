/** Which triggers read through nil (lolstats-master/ingest/team_fights.go), and when a match in order fails. */
module NilPositions {
  import opened FightAnalysis
  import opened FightFailures
  import opened FightRuns
  import opened History
  import opened Sight
  import opened TeamFights
  import opened Teams
  import opened Wrappers

  /** A trigger looked at in the newest snapshot reads through nil: the one who is hit or dies, or the tracked
      player, was never reported, or they are close, and some living player was never reported or was not
      known when it matters who was in sight. */
  ghost predicate TriggerMeetsNil(
    c: Setting, reporters: set<int>, states: seq<Snapshot>, p: int, start: real, wards: Wards)
  {
    states != [] &&
    var s := states[|states| - 1];
    var group := Around(s, p);
    c.me in s.alive
    && (!({p, c.me} <= reporters)
        || (Near(s, p, c.me, PARTICIPANT_DISTANCE)
            && (!(s.alive * PLAYERS <= reporters)
                || (group - OnTeam(group, TeamID(c.me)) != {} && CannotTell(group, states, start, c.world, wards)))))
  }

  lemma SomeAreUnknown(s: Snapshot, reporters: set<int>)
    requires forall p :: p in reporters <==> IsKnown(s, p)
    ensures AliveKnown(s) <==> s.alive * PLAYERS <= reporters
  {
    hide IsKnown;
  }

  lemma OpensAtNewest(
    c: Setting, reporters: set<int>, states: seq<Snapshot>, p: int, start: real, time: real, wards: Wards)
    requires Closest(states, time) == Some(|states| - 1) && Closest(states, start).Some?
    requires forall q :: q in reporters <==> IsKnown(states[|states| - 1], q)
    ensures Opens(c, states, p, start, time, wards) == NilRead <==>
            TriggerMeetsNil(c, reporters, states, p, start, wards)
  {
    hide Closest, IsKnown, Near, Around, OnTeam, CannotTell, AliveKnown;
    SomeAreUnknown(states[|states| - 1], reporters);
  }

  /** What is not a report changes nothing about who was reported. */
  lemma NobodyReported(events: seq<Event>, e: Event)
    requires !e.Report?
    ensures Reporters(events + [e]) == Reporters(events) && (UsableAfter(events + [e]) <==> UsableAfter(events))
  {
    assert (events + [e])[..|events|] == events;
  }

  /** The history a trigger is looked at in remembers the same, and its times are times of the match. */
  lemma {:induction false} LookingRemembers(c: Setting, events: seq<Event>, e: Event)
    requires c.me in PLAYERS && AllOk(events) && InMatch(events) && IsMatchTime(e.Time()) && (e.Hit? || e.Death?)
    requires TimeOrdered(events + [e]) && Run(c, events).Some?
    ensures var states := Looking(Run(c, events).value, e);
            && Remembers(events + [e], states) && StatesInMatch(states) && Spaced(states) && NewestBy(states, e.Time())
            && SessionsInMatch(Run(c, events).value.damage)
  {
    hide Run, Quiet, Remembers, StatesInMatch, SessionsInMatch, IsMatchTime, Closest, Hurting, Spaced, WithinWindow,
      FightsOk,
      NewestBy, TimeOrdered;
    var v := Run(c, events).value;
    RunRemembers(c, events);
    RunInMatch(c, events);
    RunIsOk(c, events);
    BeforeLast(events, e);
    RunIsBy(c, events, e.Time());
    LookingIsWindow(c, v, e);
    LookingIsQuiet(v, e);
    QuietKeepsMemory(events, e, v.states, Looking(v, e));
    QuietInMatch(v.states, Looking(v, e));
    QuietStaysBy(v.states, Looking(v, e), e.Time(), e.Time());
  }

  lemma LookingIsQuiet(v: View, e: Event)
    ensures Quiet(v.states, Looking(v, e))
  {
    hide Hurting;
    if e.Hit? {
      HurtingIsQuiet(v, e.damage);
    }
  }

  lemma KnownAreReported(events: seq<Event>, states: seq<Snapshot>)
    requires Remembers(events, states) && ReadyForFights(states)
    ensures forall q :: q in Reporters(events) <==> IsKnown(states[|states| - 1], q)
  {
    hide IsKnown, Reporters;
  }

  /** The newest snapshot is what an ordered match looks at, and it knows who was reported. */
  lemma {:induction false} LooksAtNewest(c: Setting, events: seq<Event>, e: Event)
    requires c.me in PLAYERS && AllOk(events + [e]) && InMatch(events + [e]) && TimeOrdered(events + [e])
    requires Run(c, events).Some? && (e.Hit? || e.Death?) && UsableAfter(events)
    ensures var v := Run(c, events).value;
            var states := Looking(v, e);
            && Closest(states, e.Time()) == Some(|states| - 1) && Closest(states, SessionStart(v, e)).Some?
            && forall q :: q in Reporters(events) <==> IsKnown(states[|states| - 1], q)
  {
    hide Run, UsableAfter, StatesInMatch, SessionsInMatch, IsMatchTime, Closest, Spaced, IsKnown, Reporters, Remembers,
      NewestBy, ReadyForFights, Looking, SessionStart, TimeOrdered;
    OkSoFar(events, e);
    LookingRemembers(c, events, e);
    NobodyReported(events, e);
    var v, more := Run(c, events).value, events + [e];
    var states := Looking(v, e);
    ReportersArePlayers(more);
    MemoryIsReady(more, states);
    NowIsNewest(states, e.Time());
    KnownAreReported(more, states);
    SessionInMatch(v, e);
    FoundIffReady(more, states, SessionStart(v, e));
  }

  /** No trigger does anything before fights can be seen. */
  lemma {:induction false} NothingSeen(c: Setting, events: seq<Event>, e: Event)
    requires c.me in PLAYERS && AllOk(events + [e]) && InMatch(events + [e]) && TimeOrdered(events + [e])
    requires Run(c, events).Some? && !UsableAfter(events)
    ensures Trigger(c, Run(c, events).value, e) == NotOpened
  {
    hide Run, UsableAfter, StatesInMatch, SessionsInMatch, IsMatchTime, Closest, Spaced, Reporters, Remembers, NewestBy,
      Trigger, TimeOrdered, Hurting;
    var v := Run(c, events).value;
    if Trigger(c, v, e) != NotOpened {
      TriggerFinds(c, v, e);
      OkSoFar(events, e);
      LookingRemembers(c, events, e);
      NobodyReported(events, e);
      FoundIffReady(events + [e], Looking(v, e), e.Time());
    }
  }

  /** With events in order, a trigger meets nil exactly when it can open a fight, fights can be seen, and it
      reads through nil in the newest snapshot. */
  lemma {:induction false} TriggerFailsExactly(c: Setting, events: seq<Event>, e: Event)
    requires c.me in PLAYERS && AllOk(events + [e]) && InMatch(events + [e]) && TimeOrdered(events + [e])
    requires Run(c, events).Some? && (e.Hit? || e.Death?)
    ensures var v := Run(c, events).value;
            Trigger(c, v, e) == NilRead <==>
            && CanTrigger(c, v, e) && UsableAfter(events)
            && TriggerMeetsNil(c, Reporters(events), Looking(v, e), Victim(e), SessionStart(v, e), e.wards)
  {
    hide Run, UsableAfter, Closest, IsKnown, Reporters, Looking, SessionStart, TriggerMeetsNil, CanTrigger, Opens,
      AllOk, InMatch,
      TimeOrdered, Trigger;
    var v := Run(c, events).value;
    if UsableAfter(events) {
      LooksAtNewest(c, events, e);
      TriggerIs(c, v, e);
      OpensAtNewest(c, Reporters(events), Looking(v, e), Victim(e), SessionStart(v, e), e.Time(), e.wards);
    } else {
      NothingSeen(c, events, e);
    }
  }

  /** Event `i` is a trigger that reads through nil. */
  ghost predicate TriggerFailsAt(c: Setting, events: seq<Event>, i: nat) {
    && i < |events| && (events[i].Hit? || events[i].Death?) && Run(c, events[..i]).Some?
    && var v, e := Run(c, events[..i]).value, events[i];
    && CanTrigger(c, v, e) && UsableAfter(events[..i])
    && TriggerMeetsNil(c, Reporters(events[..i]), Looking(v, e), Victim(e), SessionStart(v, e), e.wards)
  }

  lemma {:induction false} OrderedMeetsNil(c: Setting, events: seq<Event>, i: nat)
    requires c.me in PLAYERS && AllOk(events) && InMatch(events) && TimeOrdered(events)
    ensures MeetsNilAt(c, events, i) <==> TriggerFailsAt(c, events, i)
  {
    hide Run, UsableAfter, Reporters, Looking, SessionStart, TriggerMeetsNil, CanTrigger, IsMatchTime, Trigger,
      TriggerReadsNil, ReviewMeetsNil,
      ReviewMayFail;
    if i < |events| && Run(c, events[..i]).Some? {
      var front, e := events[..i], events[i];
      assert front + [e] == events[..i + 1];
      assert e.Ok() && IsMatchTime(e.Time());
      TriggerIsNil(c, Run(c, front).value, e);
      match e
      case Report(u) =>
        OrderedReview(c, front, u);
        if ReviewMeetsNil(c, Run(c, front).value, u) {
          MeetingNilMayFail(c, Run(c, front).value, u);
        }
      case Hit(_, _) => TriggerFailsExactly(c, front, e);
      case Death(_, _, _) => TriggerFailsExactly(c, front, e);
      case Other(_, _) => NoTrigger(c, Run(c, front).value, e);
    }
  }

  /** With events in order the program fails exactly when damage by a turret or a monster comes before fights
      can be seen, or a death or serious damage, while no fight is open and fights can be seen, reads through
      nil in the newest snapshot. */
  lemma {:induction false} OrderedFailsExactly(c: Setting, events: seq<Event>)
    requires c.me in PLAYERS && AllOk(events) && InMatch(events) && TimeOrdered(events)
    ensures Run(c, events) == None <==> exists i: nat :: LosesDamage(events, i) || TriggerFailsAt(c, events, i)
  {
    hide *;
    FailsExactly(c, events);
    forall i: nat
      ensures MeetsNilAt(c, events, i) <==> TriggerFailsAt(c, events, i)
    {
      OrderedMeetsNil(c, events, i);
    }
  }

  /** In order, a death makes the program fail exactly when no fight is open, fights can be seen and it meets
      nil in the newest snapshot. */
  lemma {:induction false} DeathFailsExactly(c: Setting, events: seq<Event>, p: int, seconds: real, wards: Wards)
    requires c.me in PLAYERS && AllOk(events + [Death(p, seconds, wards)])
    requires InMatch(events + [Death(p, seconds, wards)]) && TimeOrdered(events + [Death(p, seconds, wards)])
    requires Run(c, events).Some?
    ensures var v := Run(c, events).value;
            Run(c, events + [Death(p, seconds, wards)]) == None <==>
            && !IsOpen(v.fights, c.matchDuration) && UsableAfter(events)
            && TriggerMeetsNil(c, Reporters(events), v.states, p, HitsOn(v.damage, p).startTime, wards)
  {
    hide Run, UsableAfter, Reporters, TriggerMeetsNil, AllOk, InMatch, TimeOrdered, Step, Trigger;
    var e := Death(p, seconds, wards);
    RunExtends(c, events, e);
    OtherFails(c, Run(c, events).value, e);
    TriggerFailsExactly(c, events, e);
  }

  /** In order, a hit makes the program fail exactly when it is of a turret or a monster and fights cannot be
      seen, or it makes the session serious while no fight is open, fights can be seen and it meets nil. */
  lemma {:induction false} HitFailsExactly(c: Setting, events: seq<Event>, t: Damage, wards: Wards)
    requires c.me in PLAYERS && AllOk(events + [Hit(t, wards)])
    requires InMatch(events + [Hit(t, wards)]) && TimeOrdered(events + [Hit(t, wards)])
    requires Run(c, events).Some?
    ensures var v := Run(c, events).value;
            var session := HitsOn(Fed(v, t).damage, t.victimID);
            Run(c, events + [Hit(t, wards)]) == None <==>
            || (TeamID(t.attackerID) == 0 && !UsableAfter(events))
            || (!IsOpen(v.fights, c.matchDuration) && IsSerious(session) && UsableAfter(events)
                && TriggerMeetsNil(c, Reporters(events), Hurting(v, t), t.victimID, session.startTime, wards))
  {
    hide Run, UsableAfter, Reporters, TriggerMeetsNil, AllOk, InMatch, TimeOrdered, Step, Trigger, Hurting, Closest,
      Fed, HitsOn;
    var e := Hit(t, wards);
    OkSoFar(events, e);
    RunExtends(c, events, e);
    HitFails(c, Run(c, events).value, e);
    FindsExactly(c, events, t.seconds);
    TriggerFailsExactly(c, events, e);
  }

  // ---------- Two matches that fail ----------

  /** A report of a player in the corner of the map. */
  function ReportOf(p: int, seconds: real): Event {
    Report(Update(seconds, p, Position(0.0, 0.0), 0, 1.0, 100.0))
  }

  function TurretHit(p: int, seconds: real, wards: Wards): Event {
    Hit(Damage(seconds, p, 0, 5.0), wards)
  }

  /** One report, and a turret hits before there is another. */
  lemma TurretHitsTooEarly(c: Setting, wards: Wards)
    requires c.me in PLAYERS
    ensures Run(c, [ReportOf(1, 1.0), TurretHit(1, 2.0, wards)]) == None
  {
    hide Run, MeetsNilAt;
    var events := [ReportOf(1, 1.0), TurretHit(1, 2.0, wards)];
    var front := [ReportOf(1, 1.0)];
    assert events[..1] == front && front[..0] == [];
    assert Reporters(front) == {1} && !HasLaterReport(front);
    assert 2 in PLAYERS;
    assert LosesDamage(events, 1);
    FailsExactly(c, events);
  }

  lemma TwoReports(c: Setting)
    requires c.me == 1
    ensures UsableAfter([ReportOf(1, 1.0), ReportOf(1, 1.25)])
            && Reporters([ReportOf(1, 1.0), ReportOf(1, 1.25)]) == {1}
    ensures var v := Run(c, [ReportOf(1, 1.0), ReportOf(1, 1.25)]);
            v.Some? && v.value.fights == [] && v.value.damage == Start().damage
            && v.value.states == WithReport(WithReport([], ReportOf(1, 1.0).update), ReportOf(1, 1.25).update)
  {
    hide WithReport, Run;
    var first, second := ReportOf(1, 1.0).update, ReportOf(1, 1.25).update;
    RunStarts(c);
    assert [] + [Report(first)] == [Report(first)]
           && [Report(first)] + [Report(second)] == [Report(first), Report(second)];
    ReportRuns(c, [], first);
    ReportRuns(c, [Report(first)], second);
    AnotherReport([], first);
    AnotherReport([Report(first)], second);
    assert Reporters([]) == {} && FirstReport([]) == None;
  }

  lemma NobodyDies(s: Snapshot, u: Update, seconds: real)
    ensures s.alive <= WithUpdate(s, u).alive
    ensures Copy(seconds, Some(s)).alive == s.alive * PLAYERS && Copy(seconds, None).alive == PLAYERS
  {
  }

  lemma StillAlive(states: seq<Snapshot>)
    requires states == WithReport(WithReport([], ReportOf(1, 1.0).update), ReportOf(1, 1.25).update)
    ensures states != [] && 1 in states[|states| - 1].alive
  {
    hide WithReport, Copy, WithUpdate;
    var first, second := ReportOf(1, 1.0).update, ReportOf(1, 1.25).update;
    var before := WithReport([], first);
    WithReportIsWindow([], first);
    NewestReport([], first);
    NobodyDies(Copy(1.0, None), first, 1.0);
    NewestReport(before, second);
    NobodyDies(before[|before| - 1], first, 1.25);
    NobodyDies(Noting(before, 1.25), second, 1.25);
    assert 1 in PLAYERS;
  }

  lemma {:induction false} OtherDeathFails(c: Setting, events: seq<Event>, v: View, wards: Wards)
    requires c.me == 1 && AllOk(events + [Death(6, 2.0, wards)]) && InMatch(events + [Death(6, 2.0, wards)])
    requires TimeOrdered(events + [Death(6, 2.0, wards)]) && Run(c, events) == Some(v) && v.fights == []
    requires UsableAfter(events) && Reporters(events) == {1}
    requires v.states != [] && 1 in v.states[|v.states| - 1].alive
    ensures Run(c, events + [Death(6, 2.0, wards)]) == None
  {
    hide Run, UsableAfter, Reporters, HitsOn, AllOk, InMatch, TimeOrdered, TriggerMeetsNil;
    MeetsNilForOther(c, events, v.states, HitsOn(v.damage, 6).startTime, wards);
    DeathFailsExactly(c, events, 6, 2.0, wards);
  }

  /** Two reports of one player, a quarter of a second apart, let the damage of a turret be noted, although
      nine positions are nil; then the death of another player reads through nil. */
  lemma OnePlayerIsEnough(c: Setting, wards: Wards)
    requires c.me == 1
    ensures UsableAfter([ReportOf(1, 1.0), ReportOf(1, 1.25)])
            && Reporters([ReportOf(1, 1.0), ReportOf(1, 1.25)]) == {1}
    ensures Run(c, [ReportOf(1, 1.0), ReportOf(1, 1.25), TurretHit(1, 2.0, wards)]).Some?
    ensures Run(c, [ReportOf(1, 1.0), ReportOf(1, 1.25), Death(6, 2.0, wards)]) == None
  {
    hide Run, UsableAfter, Reporters, WithReport;
    var events := [ReportOf(1, 1.0), ReportOf(1, 1.25)];
    TwoReports(c);
    var v := Run(c, events).value;
    StillAlive(v.states);
    assert events + [Death(6, 2.0, wards)] == [ReportOf(1, 1.0), ReportOf(1, 1.25), Death(6, 2.0, wards)];
    OtherDeathFails(c, events, v, wards);
    assert events + [TurretHit(1, 2.0, wards)] == [ReportOf(1, 1.0), ReportOf(1, 1.25), TurretHit(1, 2.0, wards)];
    TurretIsNoted(c, events, v, wards);
  }

  lemma MeetsNilForOther(c: Setting, events: seq<Event>, states: seq<Snapshot>, start: real, wards: Wards)
    requires states != [] && c.me == 1 && 1 in states[|states| - 1].alive && Reporters(events) == {1}
    ensures TriggerMeetsNil(c, Reporters(events), states, 6, start, wards)
  {
    assert 6 in {6, c.me};
    hide Near, Around, OnTeam, CannotTell;
  }

  lemma {:induction false} TurretIsNoted(c: Setting, events: seq<Event>, v: View, wards: Wards)
    requires c.me in PLAYERS && AllOk(events) && InMatch(events) && Run(c, events) == Some(v) && UsableAfter(events)
    requires v.damage == Start().damage
    ensures Run(c, events + [TurretHit(1, 2.0, wards)]).Some?
  {
    var e := TurretHit(1, 2.0, wards);
    hide UsableAfter, Closest, Opens, Hurt;
    FindsExactly(c, events, 2.0);
    HitFails(c, v, e);
    assert (events + [e])[..|events|] == events;
    assert HitsOn(v.damage, 1) == ContinuousDamage(0.0, 0.0, 0.0, 0);
  }
}
