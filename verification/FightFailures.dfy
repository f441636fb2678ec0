/** When the team fight analysis fails (lolstats-master/ingest/team_fights.go): on damage by a turret or a
    monster that finds no snapshot, and on reading the position of a player who was never reported. */
module FightFailures {
  import opened FightRuns
  import opened History
  import opened Sight
  import opened TeamFights
  import opened Teams
  import opened Wrappers

  // ---------- Times ----------

  /** Times are match seconds, far below the distance at which no snapshot would be found. */
  predicate IsMatchTime(sec: real) {
    0.0 <= sec < FAR
  }

  ghost predicate InMatch(events: seq<Event>) {
    forall i :: 0 <= i < |events| ==> IsMatchTime(events[i].Time())
  }

  ghost predicate StatesInMatch(states: seq<Snapshot>) {
    forall i :: 0 <= i < |states| ==> IsMatchTime(states[i].seconds)
  }

  ghost predicate SessionsInMatch(damage: map<int, ContinuousDamage>) {
    forall p :: IsMatchTime(HitsOn(damage, p).startTime)
  }

  ghost predicate ViewInMatch(v: View) {
    StatesInMatch(v.states) && SessionsInMatch(v.damage)
  }

  lemma EarlierIsOld(states: seq<Snapshot>, seconds: real, i: nat)
    requires i < |Extended(states, seconds)| - 1
    ensures Extended(states, seconds)[i] in states
  {
    hide Copy, DropOld;
    if !BelongsToNewest(states, seconds) {
      var all := states + [NextSnapshot(states, seconds)];
      var k := DropOldIsSuffix(all, seconds - WINDOW_SECONDS);
      assert all[k..][i] == all[k + i];
    }
  }

  /** Every snapshot of the extended history is an old one or the one noted in. */
  lemma ReportAddsOne(states: seq<Snapshot>, u: Update, i: nat)
    requires Spaced(states) && WithinWindow(states) && i < |WithReport(states, u)|
    ensures WithReport(states, u)[i] in states || WithReport(states, u)[i] == WithUpdate(Noting(states, u.seconds), u)
  {
    hide Spaced, WithinWindow, WithUpdate, Extended, Noting;
    NewestReport(states, u);
    if i < |WithReport(states, u)| - 1 {
      EarlierIsOld(states, u.seconds, i);
    }
  }

  lemma ReportInMatch(states: seq<Snapshot>, u: Update)
    requires Spaced(states) && WithinWindow(states) && StatesInMatch(states) && IsMatchTime(u.seconds)
    ensures StatesInMatch(WithReport(states, u))
  {
    hide Spaced, WithinWindow, WithReport;
    var r := WithReport(states, u);
    NotedInMatch(states, u);
    hide WithUpdate, Noting;
    forall i | 0 <= i < |r|
      ensures IsMatchTime(r[i].seconds)
    {
      ReportAddsOne(states, u, i);
    }
  }

  lemma NotedInMatch(states: seq<Snapshot>, u: Update)
    requires StatesInMatch(states) && IsMatchTime(u.seconds)
    ensures IsMatchTime(WithUpdate(Noting(states, u.seconds), u).seconds)
  {
  }

  lemma QuietInMatch(states: seq<Snapshot>, r: seq<Snapshot>)
    requires StatesInMatch(states) && Quiet(states, r)
    ensures StatesInMatch(r)
  {
  }

  /** Only damage touches the damage sessions. */
  lemma SessionsAfter(c: Setting, v: View, e: Event)
    requires Step(c, v, e).Some?
    ensures Step(c, v, e).value.damage == if e.Hit? then Fed(v, e.damage).damage else v.damage
  {
    hide Closest, Mourned, MayReadNil, GoesOn, Reviewed, WithReport, ContinuousDamage.Add, ContinuousAttack.Add;
    if e.Hit? {
      HitSessions(c, v, e.damage, e.wards);
    }
  }

  lemma HitSessions(c: Setting, v: View, t: Damage, wards: Wards)
    requires AfterDamage(c, v, t, wards).Some?
    ensures AfterDamage(c, v, t, wards).value.damage == Fed(v, t).damage
  {
    hide Closest, Struck, ContinuousDamage.Add, ContinuousAttack.Add;
    if TeamID(t.attackerID) != 0 {
      StruckKeepsStates(c, Fed(v, t), t, wards);
    } else {
      var i := Closest(v.states, t.seconds).value;
      StruckKeepsStates(c, Fed(v, t).(states := v.states[i := Hurt(v.states[i], t)]), t, wards);
    }
  }

  lemma FedInMatch(v: View, t: Damage)
    requires SessionsInMatch(v.damage) && IsMatchTime(t.seconds)
    ensures SessionsInMatch(Fed(v, t).damage)
  {
    forall p
      ensures IsMatchTime(HitsOn(Fed(v, t).damage, p).startTime)
    {
      assert IsMatchTime(HitsOn(v.damage, p).startTime);
    }
  }

  lemma {:induction false} RunInMatch(c: Setting, events: seq<Event>)
    requires c.me in PLAYERS && AllOk(events) && InMatch(events) && Run(c, events).Some?
    ensures ViewInMatch(Run(c, events).value)
  {
    hide Step, Quiet, StatesInMatch, SessionsInMatch, IsMatchTime;
    if events == [] {
      NothingYet();
    } else {
      var n := |events| - 1;
      var v, e := Run(c, events[..n]).value, events[n];
      RunInMatch(c, events[..n]);
      RunIsOk(c, events[..n]);
      SessionsAfter(c, v, e);
      assert IsMatchTime(e.Time());
      if e.Report? {
        StepReports(c, v, e.update, e);
        ReportInMatch(v.states, e.update);
      } else {
        OtherStepsAreQuiet(c, v, e);
        QuietInMatch(v.states, Step(c, v, e).value.states);
        if e.Hit? {
          FedInMatch(v, e.damage);
        }
      }
    }
  }

  lemma NothingYet()
    ensures StatesInMatch(Start().states) && SessionsInMatch(Start().damage)
  {
  }

  // ---------- Damage that finds no snapshot ----------

  lemma FoundIffReady(events: seq<Event>, states: seq<Snapshot>, time: real)
    requires Remembers(events, states) && AllOk(events) && StatesInMatch(states) && IsMatchTime(time)
    ensures Closest(states, time).Some? <==> UsableAfter(events)
  {
    hide Remembers, IsKnown, Closest, UsableAfter;
    ReportersArePlayers(events);
    MemoryIsReady(events, states);
    ClosestExists(states, time);
    if ReadyForFights(states) {
      assert IsNewestUsable(states, |states| - 1);
    } else {
      NeverReady(events, states);
    }
  }

  lemma NeverReady(events: seq<Event>, states: seq<Snapshot>)
    requires Remembers(events, states) && AllOk(events) && !ReadyForFights(states)
    ensures forall i :: 0 <= i < |states| ==> !Usable(states[i])
  {
    hide IsKnown;
    TenPlayers();
  }

  /** In a match, a snapshot is found for any moment exactly when fights can be seen. */
  lemma {:induction false} FindsExactly(c: Setting, events: seq<Event>, time: real)
    requires c.me in PLAYERS && AllOk(events) && InMatch(events) && IsMatchTime(time) && Run(c, events).Some?
    ensures Closest(Run(c, events).value.states, time).Some? <==> UsableAfter(events)
  {
    hide Run, Remembers, StatesInMatch, SessionsInMatch, UsableAfter;
    RunRemembers(c, events);
    RunInMatch(c, events);
    FoundIffReady(events, Run(c, events).value.states, time);
  }

  lemma {:induction false} UsableStays(events: seq<Event>, e: Event)
    requires UsableAfter(events) && AllOk(events + [e])
    ensures UsableAfter(events + [e])
  {
    assert (events + [e])[..|events|] == events;
    ReportersArePlayers(events + [e]);
  }

  /** A trigger that opens a fight, or meets nil, was looked for in a history where something was found. */
  lemma TriggerFinds(c: Setting, v: View, e: Event)
    requires Trigger(c, v, e) != NotOpened
    ensures e.Hit? || e.Death?
    ensures Closest(if e.Hit? then Hurting(v, e.damage) else v.states, e.Time()).Some?
  {
    hide Closest, OpensAround, Hurting, ContinuousDamage.Add, ContinuousAttack.Add, Near, IsKnown;
  }

  lemma HurtingIsQuiet(v: View, t: Damage)
    ensures Quiet(v.states, Hurting(v, t))
  {
    hide Closest;
  }

  /** No fight is recorded before fights can be seen. */
  lemma {:induction false} FightsNeedSight(c: Setting, events: seq<Event>)
    requires c.me in PLAYERS && AllOk(events) && InMatch(events) && Run(c, events).Some?
    requires Run(c, events).value.fights != []
    ensures UsableAfter(events)
  {
    hide Step, Quiet, Remembers, UsableAfter, Closest, StatesInMatch, SessionsInMatch, IsMatchTime, Trigger, IsOpenedBy;
    if events != [] {
      var n := |events| - 1;
      var front, e := events[..n], events[n];
      assert events == front + [e];
      var v := Run(c, front).value;
      assert IsMatchTime(e.Time());
      TriggerOpens(c, v, e);
      if v.fights != [] {
        FightsNeedSight(c, front);
        UsableStays(front, e);
      } else {
        assert e.Hit? || e.Death? by {
          if e.Report? || e.Other? {
            NoTrigger(c, v, e);
          }
        }
        RunRemembers(c, front);
        RunInMatch(c, front);
        TriggerFinds(c, v, e);
        if e.Hit? {
          HurtingIsQuiet(v, e.damage);
          QuietKeepsMemory(front, e, v.states, Hurting(v, e.damage));
          QuietInMatch(v.states, Hurting(v, e.damage));
          FoundIffReady(events, Hurting(v, e.damage), e.Time());
        } else {
          FoundIffReady(front, v.states, e.Time());
          UsableStays(front, e);
        }
      }
    }
  }

  /** The review of an open fight finds a snapshot. */
  lemma {:induction false} ReviewFinds(c: Setting, events: seq<Event>, u: Update)
    requires c.me in PLAYERS && AllOk(events) && InMatch(events) && Run(c, events).Some?
    requires u.participantID in PLAYERS && IsMatchTime(u.seconds)
             && IsOpen(Run(c, events).value.fights, c.matchDuration)
    ensures Closest(WithReport(Run(c, events).value.states, u), u.seconds).Some?
  {
    hide Run, Remembers, UsableAfter, Closest, StatesInMatch, SessionsInMatch, Spaced, WithinWindow, FightsOk,
      WithReport;
    var v := Run(c, events).value;
    RunIsOk(c, events);
    RunInMatch(c, events);
    RunRemembers(c, events);
    FightsNeedSight(c, events);
    UsableStays(events, Report(u));
    ReportKeepsMemory(events, u, v.states);
    ReportInMatch(v.states, u);
    FoundIffReady(events + [Report(u)], WithReport(v.states, u), u.seconds);
  }

  predicate IsNeutral(e: Event) {
    e.Hit? && TeamID(e.damage.attackerID) == 0
  }

  /** Damage by a turret or a monster before any snapshot can be found. */
  ghost predicate LosesDamage(events: seq<Event>, i: nat) {
    i < |events| && IsNeutral(events[i]) && !UsableAfter(events[..i])
  }

  // ---------- Positions that are nil ----------

  /** Reviewing the open fight reads through a nil position, and nobody keeps the fight going. */
  ghost predicate ReviewMeetsNil(c: Setting, v: View, u: Update) {
    && IsOpen(v.fights, c.matchDuration) && Closest(WithReport(v.states, u), u.seconds).Some?
    && var f, s := v.fights[|v.fights| - 1], WithReport(v.states, u)[Closest(WithReport(v.states, u), u.seconds).value];
    MayReadNil(f.participants, s, v, u.seconds) && !GoesOn(f.participants, s, v, u.seconds)
  }

  /** Around a living tracked player, a trigger looked at in snapshot `t` reads through nil: his own position or
      that of the one who is hit or dies, or, when they are close, that of a living player, or one that matters
      for who was in sight. */
  ghost predicate ReadsNilIn(c: Setting, states: seq<Snapshot>, t: nat, p: int, start: real, wards: Wards)
    requires t < |states|
  {
    var s := states[t];
    var group := Around(s, p);
    c.me in s.alive
    && (!IsKnown(s, p) || !IsKnown(s, c.me)
        || (Near(s, p, c.me, PARTICIPANT_DISTANCE)
            && (Closest(states, start) == None || !AliveKnown(s)
                || (group - OnTeam(group, TeamID(c.me)) != {} && CannotTell(group, states, start, c.world, wards)))))
  }

  /** A death, or serious damage with no fight open, reads through nil in the nearest snapshot. */
  ghost predicate TriggerReadsNil(c: Setting, v: View, e: Event) {
    (e.Hit? || e.Death?) && CanTrigger(c, v, e) && Closest(Looking(v, e), e.Time()).Some?
    && ReadsNilIn(c, Looking(v, e), Closest(Looking(v, e), e.Time()).value, Victim(e), SessionStart(v, e), e.wards)
  }

  lemma TriggerIsNil(c: Setting, v: View, e: Event)
    ensures Trigger(c, v, e) == NilRead <==> TriggerReadsNil(c, v, e)
  {
    hide Trigger, Looking, CanTrigger, SessionStart, Closest, Near, IsKnown, Around, OnTeam, AliveKnown, CannotTell;
    if e.Hit? || e.Death? {
      TriggerIs(c, v, e);
    } else {
      NoTrigger(c, v, e);
    }
  }

  /** An event reads through a nil position, as a trigger or in the review of the open fight. */
  ghost predicate MeetsNil(c: Setting, v: View, e: Event) {
    if e.Report? then ReviewMeetsNil(c, v, e.update) else TriggerReadsNil(c, v, e)
  }

  lemma HitFails(c: Setting, v: View, e: Event)
    requires e.Hit?
    ensures Step(c, v, e) == None <==>
            (IsNeutral(e) && Closest(v.states, e.damage.seconds) == None) || Trigger(c, v, e) == NilRead
  {
    hide Closest, Opens, WithDamage, WithFirstDamage, ContinuousDamage.Add, ContinuousAttack.Add, Hurt;
    if IsNeutral(e) && Closest(v.states, e.damage.seconds) == None {
    } else {
    }
  }

  lemma ReportFails(c: Setting, v: View, u: Update)
    requires IsOpen(v.fights, c.matchDuration) ==> Closest(WithReport(v.states, u), u.seconds).Some?
    ensures AfterReport(c, v, u) == None <==> ReviewMeetsNil(c, v, u)
  {
    hide Closest, Reviewed, WithReport, MayReadNil, GoesOn;
  }

  lemma OtherFails(c: Setting, v: View, e: Event)
    requires !e.Hit? && !e.Report?
    ensures Step(c, v, e) == None <==> Trigger(c, v, e) == NilRead
  {
    hide Opens, WithDeath;
  }

  ghost predicate MeetsNilAt(c: Setting, events: seq<Event>, i: nat) {
    i < |events| && Run(c, events[..i]).Some? && MeetsNil(c, Run(c, events[..i]).value, events[i])
  }

  lemma {:induction false} FailsWhen(c: Setting, events: seq<Event>, i: nat)
    requires c.me in PLAYERS && AllOk(events) && InMatch(events) && i < |events| && Run(c, events[..i]).Some?
    ensures FailsAt(c, events, i) <==> LosesDamage(events, i) || MeetsNilAt(c, events, i)
  {
    hide AfterReport, AfterDamage, AfterDeath, AfterNote, ReviewMeetsNil, Trigger, TriggerReadsNil, UsableAfter,
      Closest, Run, WithReport;
    var v, e := Run(c, events[..i]).value, events[i];
    TriggerIsNil(c, v, e);
    assert IsMatchTime(e.Time());
    FindsExactly(c, events[..i], e.Time());
    if e.Hit? {
      HitFails(c, v, e);
    } else if e.Report? {
      assert events[i].Ok();
      if IsOpen(v.fights, c.matchDuration) {
        ReviewFinds(c, events[..i], e.update);
      }
      ReportFails(c, v, e.update);
    } else {
      OtherFails(c, v, e);
    }
  }

  /** A run fails exactly when damage by a turret or a monster comes too early or an event meets nil. */
  lemma {:induction false} FailsExactly(c: Setting, events: seq<Event>)
    requires c.me in PLAYERS && AllOk(events) && InMatch(events)
    ensures Run(c, events) == None <==> exists i: nat :: LosesDamage(events, i) || MeetsNilAt(c, events, i)
  {
    hide Run, LosesDamage, MeetsNilAt;
    RunFailsSomewhere(c, events);
    if i: nat :| FailsAt(c, events, i) {
      FailsWhen(c, events, i);
    }
    if Run(c, events).Some? {
      forall i: nat
        ensures !LosesDamage(events, i) && !MeetsNilAt(c, events, i)
      {
        if i < |events| {
          RunsThrough(c, events, i);
          FailsWhen(c, events, i);
          assert !FailsAt(c, events, i);
        } else {
          NothingThere(c, events, i);
        }
      }
    }
  }

  lemma NothingThere(c: Setting, events: seq<Event>, i: nat)
    requires i >= |events|
    ensures !LosesDamage(events, i) && !MeetsNilAt(c, events, i)
  {
  }
}
