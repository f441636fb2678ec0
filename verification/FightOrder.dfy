/** The order of recorded fights (lolstats-master/ingest/team_fights.go): a fight begins with the damage session
    of its trigger, which may have begun before the fight recorded before it. */
module FightOrder {
  import opened Basics
  import opened FightAnalysis
  import opened FightFailures
  import opened FightRuns
  import opened History
  import opened MapOrder
  import opened Sight
  import opened TeamFights
  import opened Teams
  import opened Wrappers

  /** Fights that begin one after the other and do not end before they begin. */
  ghost predicate InOrder(fights: seq<TeamFight>) {
    && (forall i :: 0 <= i < |fights| ==> fights[i].begin <= fights[i].end)
    && (forall i, j :: 0 <= i < j < |fights| ==> fights[i].begin <= fights[j].begin)
  }

  /** A fight opens whose trigger was first hit before the fight recorded last began. */
  ghost predicate OpensBack(c: Setting, v: View, e: Event) {
    Trigger(c, v, e).Opened? && v.fights != [] && SessionStart(v, e) < v.fights[|v.fights| - 1].begin
  }

  /** The open fight is over, and everybody in it was last hit before the fight began. */
  ghost predicate EndsEarly(c: Setting, v: View, e: Event) {
    e.Report? && IsOpen(v.fights, c.matchDuration) && Closest(WithReport(v.states, e.update), e.update.seconds).Some? &&
    var r := WithReport(v.states, e.update);
    var f := v.fights[|v.fights| - 1];
    !GoesOn(f.participants, r[Closest(r, e.update.seconds).value], v, e.update.seconds)
    && 0.0 < LastHit(f.participants, v.damage) < f.begin
  }

  ghost predicate BeginInTime(fights: seq<TeamFight>, limit: real) {
    forall i :: 0 <= i < |fights| ==> fights[i].begin <= limit
  }

  // ---------- One step ----------

  /** The fights of both lists begin and end alike, around the same players. */
  ghost predicate SameTimes(a: seq<TeamFight>, b: seq<TeamFight>) {
    |a| == |b| &&
    forall i :: 0 <= i < |a| ==>
                  a[i].begin == b[i].begin && a[i].end == b[i].end && a[i].initialTarget == b[i].initialTarget
  }

  lemma SameTimesSameOrder(a: seq<TeamFight>, b: seq<TeamFight>)
    requires SameTimes(a, b)
    ensures InOrder(a) <==> InOrder(b)
  {
  }

  lemma HitKeepsTimes(c: Setting, v: View, t: Damage, wards: Wards)
    requires AfterDamage(c, v, t, wards).Some? && !Trigger(c, v, Hit(t, wards)).Opened?
    ensures SameTimes(v.fights, AfterDamage(c, v, t, wards).value.fights)
  {
    hide Closest, Opens, WithDamage, WithFirstDamage, ContinuousDamage.Add, ContinuousAttack.Add, Hurt;
    if IsOpen(v.fights, c.matchDuration) {
      DamageAddsOnly(v.fights[|v.fights| - 1], c.me, t);
    }
  }

  lemma DeathKeepsTimes(c: Setting, v: View, e: Event)
    requires e.Death? && AfterDeath(c, v, e.victimID, e.seconds, e.wards).Some? && !Trigger(c, v, e).Opened?
    ensures SameTimes(v.fights, AfterDeath(c, v, e.victimID, e.seconds, e.wards).value.fights)
  {
    hide Opens, WithDeath;
    if IsOpen(v.fights, c.matchDuration) {
      DeathAddsOnly(v.fights[|v.fights| - 1], c.me, e.victimID);
    }
  }

  lemma AnotherFight(fights: seq<TeamFight>, g: TeamFight)
    requires g.begin <= g.end
    ensures InOrder(fights + [g]) <==> InOrder(fights) && (fights != [] ==> fights[|fights| - 1].begin <= g.begin)
  {
    var more := fights + [g];
    assert forall i :: 0 <= i < |fights| ==> more[i] == fights[i];
    if InOrder(more) && fights != [] {
      assert more[|fights| - 1].begin <= more[|fights|].begin;
    }
    if InOrder(fights) && (fights != [] ==> fights[|fights| - 1].begin <= g.begin) {
      forall i | 0 <= i < |fights|
        ensures fights[i].begin <= g.begin
      {
        assert i < |fights| - 1 ==> fights[i].begin <= fights[|fights| - 1].begin;
      }
    }
  }

  /** A fight that ends otherwise than before. */
  lemma OtherEnd(fights: seq<TeamFight>, g: TeamFight)
    requires fights != [] && g.begin == fights[|fights| - 1].begin <= fights[|fights| - 1].end
    ensures InOrder(fights[|fights| - 1 := g]) <==> InOrder(fights) && g.begin <= g.end
  {
    var n := |fights| - 1;
    var r := fights[n := g];
    assert r[n] == g;
    if InOrder(r) {
      forall i | 0 <= i < |fights|
        ensures fights[i].begin <= fights[i].end
      {
        assert i < n ==> r[i] == fights[i];
      }
      forall i, j | 0 <= i < j < |fights|
        ensures fights[i].begin <= fights[j].begin
      {
        assert r[i].begin <= r[j].begin;
      }
    }
  }

  lemma ReportKeepsOrder(c: Setting, v: View, e: Event)
    requires e.Report? && AfterReport(c, v, e.update).Some? && BeginInTime(v.fights, c.matchDuration)
    ensures InOrder(AfterReport(c, v, e.update).value.fights) <==> InOrder(v.fights) && !EndsEarly(c, v, e)
  {
    hide Closest, WithReport, GoesOn, MayReadNil, LastHit, InOrder, TeamGold;
    if IsOpen(v.fights, c.matchDuration) {
      var n := |v.fights| - 1;
      var g := AfterReport(c, v, e.update).value.fights[n];
      assert v.fights[n].begin <= c.matchDuration;
      OtherEnd(v.fights, g);
      LastHitIsLate(v.fights[n].participants, v.damage);
    }
  }

  lemma LastHitIsLate(group: set<int>, damage: map<int, ContinuousDamage>)
    ensures LastHit(group, damage) >= 0.0
  {
  }

  /** Fights stay in order exactly as long as none opens before the last one began and none ends early. */
  lemma StepKeepsOrder(c: Setting, v: View, e: Event)
    requires c.me in PLAYERS && Step(c, v, e).Some?
    requires BeginInTime(v.fights, c.matchDuration) && SessionStart(v, e) <= c.matchDuration
    ensures InOrder(Step(c, v, e).value.fights) <==> InOrder(v.fights) && !OpensBack(c, v, e) && !EndsEarly(c, v, e)
    ensures BeginInTime(Step(c, v, e).value.fights, c.matchDuration)
  {
    hide AfterReport, AfterDamage, AfterDeath, InOrder, SameTimes, Trigger, SessionStart, LastHit, GoesOn, Closest,
      WithReport;
    TriggerOpens(c, v, e);
    var w := Step(c, v, e).value;
    if Trigger(c, v, e).Opened? {
      var g := w.fights[|v.fights|];
      assert w.fights == v.fights + [g];
      AnotherFight(v.fights, g);
      assert e.Hit? || e.Death? by {
        if e.Report? || e.Other? {
          NoTrigger(c, v, e);
        }
      }
    } else {
      match e
      case Report(u) =>
        ReportKeepsOrder(c, v, e);
        ReportKeepsBegins(c, v, u);
      case Hit(t, wards) =>
        HitKeepsTimes(c, v, t, wards);
        SameTimesSameOrder(v.fights, w.fights);
        SameTimesInTime(v.fights, w.fights, c.matchDuration);
      case Death(p, sec, wards) =>
        DeathKeepsTimes(c, v, e);
        SameTimesSameOrder(v.fights, w.fights);
        SameTimesInTime(v.fights, w.fights, c.matchDuration);
      case Other(_, _) =>
    }
  }

  lemma SameTimesInTime(a: seq<TeamFight>, b: seq<TeamFight>, limit: real)
    requires SameTimes(a, b) && BeginInTime(a, limit)
    ensures BeginInTime(b, limit)
  {
  }

  lemma ReportKeepsBegins(c: Setting, v: View, u: Update)
    requires AfterReport(c, v, u).Some? && BeginInTime(v.fights, c.matchDuration)
    ensures BeginInTime(AfterReport(c, v, u).value.fights, c.matchDuration)
  {
    hide Closest, WithReport, GoesOn, MayReadNil, LastHit, TeamGold;
  }

  // ---------- A whole match ----------

  /** Nobody is hit after the end of the match. Reports may go on after it, and they do. */
  ghost predicate InDuration(events: seq<Event>, matchDuration: real) {
    matchDuration >= 0.0 && forall i :: 0 <= i < |events| && events[i].Hit? ==> events[i].Time() <= matchDuration
  }

  /** Nothing happens before the match. */
  ghost predicate AfterZero(events: seq<Event>) {
    forall i :: 0 <= i < |events| ==> events[i].Time() >= 0.0
  }

  ghost predicate SessionsInTime(damage: map<int, ContinuousDamage>, limit: real) {
    forall p :: HitsOn(damage, p).startTime <= limit
  }

  lemma FedInTime(v: View, t: Damage, limit: real)
    requires SessionsInTime(v.damage, limit) && t.seconds <= limit
    ensures SessionsInTime(Fed(v, t).damage, limit)
  {
    forall p
      ensures HitsOn(Fed(v, t).damage, p).startTime <= limit
    {
      assert HitsOn(v.damage, p).startTime <= limit;
    }
  }

  lemma StartInTime(v: View, e: Event, limit: real)
    requires SessionsInTime(v.damage, limit) && 0.0 <= limit && (e.Hit? ==> e.Time() <= limit)
    ensures SessionStart(v, e) <= limit
  {
    hide ContinuousDamage.Add, ContinuousAttack.Add;
    if e.Hit? {
      FedInTime(v, e.damage, limit);
    }
  }

  lemma {:induction false} RunInTime(c: Setting, events: seq<Event>)
    requires InDuration(events, c.matchDuration) && Run(c, events).Some?
    ensures SessionsInTime(Run(c, events).value.damage, c.matchDuration)
  {
    hide Step, SessionsInTime;
    if events == [] {
      NothingYet(c.matchDuration);
    } else {
      var n := |events| - 1;
      RunInTime(c, events[..n]);
      SessionsAfter(c, Run(c, events[..n]).value, events[n]);
      if events[n].Hit? {
        FedInTime(Run(c, events[..n]).value, events[n].damage, c.matchDuration);
      }
    }
  }

  lemma NothingYet(limit: real)
    requires limit >= 0.0
    ensures SessionsInTime(Start().damage, limit)
  {
  }

  ghost predicate OpensBackAt(c: Setting, events: seq<Event>, i: nat) {
    i < |events| && Run(c, events[..i]).Some? && OpensBack(c, Run(c, events[..i]).value, events[i])
  }

  ghost predicate EndsEarlyAt(c: Setting, events: seq<Event>, i: nat) {
    i < |events| && Run(c, events[..i]).Some? && EndsEarly(c, Run(c, events[..i]).value, events[i])
  }

  ghost predicate Disturbs(c: Setting, events: seq<Event>, i: nat) {
    OpensBackAt(c, events, i) || EndsEarlyAt(c, events, i)
  }

  lemma DisturbsEarlier(c: Setting, events: seq<Event>, n: nat, i: nat)
    requires n < |events| && i < n
    ensures Disturbs(c, events[..n], i) <==> Disturbs(c, events, i)
  {
    hide Run, OpensBack, EndsEarly;
    assert events[..n][..i] == events[..i];
  }

  /** The recorded fights are in order exactly when no fight ever opened whose trigger was first hit before the
      last fight began, and none was closed with everybody last hit before it began. */
  lemma {:induction false} OrderedExactly(c: Setting, events: seq<Event>)
    requires c.me in PLAYERS && InDuration(events, c.matchDuration) && Run(c, events).Some?
    ensures InOrder(Run(c, events).value.fights) <==> !exists i: nat :: Disturbs(c, events, i)
    ensures BeginInTime(Run(c, events).value.fights, c.matchDuration)
  {
    hide Step, InOrder, OpensBack, EndsEarly, SessionsInTime;
    if events == [] {
      NoFights();
    } else {
      var n := |events| - 1;
      var front, e := events[..n], events[n];
      var v := Run(c, front).value;
      OrderedExactly(c, front);
      RunInTime(c, front);
      StartInTime(v, e, c.matchDuration);
      StepKeepsOrder(c, v, e);
      DisturbsLater(c, events);
    }
  }

  lemma {:induction false} DisturbsLater(c: Setting, events: seq<Event>)
    requires events != []
    ensures var n := |events| - 1;
            (exists i: nat :: Disturbs(c, events, i)) <==>
            (exists i: nat :: Disturbs(c, events[..n], i)) || Disturbs(c, events, n)
  {
    hide Run, OpensBack, EndsEarly;
    var n := |events| - 1;
    forall i: nat
      ensures Disturbs(c, events[..n], i) ==> Disturbs(c, events, i)
      ensures Disturbs(c, events, i) ==> Disturbs(c, events[..n], i) || i == n
    {
      if i < n {
        DisturbsEarlier(c, events, n, i);
      }
    }
  }

  lemma NoFights()
    ensures InOrder([])
  {
  }

  // ---------- Fights that end early ----------

  ghost predicate SessionsOrdered(damage: map<int, ContinuousDamage>, now: real) {
    forall p :: HitsOn(damage, p).startTime <= HitsOn(damage, p).lastTime <= now
  }

  /** The trigger of the last fight has been hit since the fight began. */
  ghost predicate TargetWasHit(v: View) {
    v.fights != [] ==>
      var f := v.fights[|v.fights| - 1];
      f.begin <= HitsOn(v.damage, f.initialTarget).lastTime
  }

  lemma FedInOrder(v: View, t: Damage, before: real)
    requires SessionsOrdered(v.damage, before) && before <= t.seconds
    ensures SessionsOrdered(Fed(v, t).damage, t.seconds)
    ensures forall p :: HitsOn(v.damage, p).lastTime <= HitsOn(Fed(v, t).damage, p).lastTime
  {
    var damage := Fed(v, t).damage;
    forall p
      ensures HitsOn(damage, p).startTime <= HitsOn(damage, p).lastTime <= t.seconds
      ensures HitsOn(v.damage, p).lastTime <= HitsOn(damage, p).lastTime
    {
      assert HitsOn(v.damage, p).startTime <= HitsOn(v.damage, p).lastTime <= before;
    }
  }

  lemma LaterIsOrdered(damage: map<int, ContinuousDamage>, before: real, now: real)
    requires SessionsOrdered(damage, before) && before <= now
    ensures SessionsOrdered(damage, now)
  {
    forall p
      ensures HitsOn(damage, p).startTime <= HitsOn(damage, p).lastTime <= now
    {
      assert HitsOn(damage, p).lastTime <= before;
    }
  }

  lemma {:induction false} RunKeepsSessions(c: Setting, events: seq<Event>, now: real)
    requires AfterZero(events) && TimeOrdered(events) && Run(c, events).Some? && now >= 0.0
    requires events != [] ==> events[|events| - 1].Time() <= now
    ensures SessionsOrdered(Run(c, events).value.damage, now)
  {
    hide Step, SessionsOrdered;
    if events == [] {
      NoSessions(now);
    } else {
      var n := |events| - 1;
      var v, e := Run(c, events[..n]).value, events[n];
      RunKeepsSessions(c, events[..n], e.Time());
      SessionsAfter(c, v, e);
      if e.Hit? {
        FedInOrder(v, e.damage, e.Time());
      }
      LaterIsOrdered(Step(c, v, e).value.damage, e.Time(), now);
    }
  }

  lemma NoSessions(now: real)
    requires now >= 0.0
    ensures SessionsOrdered(Start().damage, now)
  {
  }

  lemma NobodyLater(c: Setting, v: View, e: Event, w: View, before: real)
    requires Step(c, v, e) == Some(w) && SessionsOrdered(v.damage, before) && before <= e.Time()
    ensures forall p :: HitsOn(v.damage, p).lastTime <= HitsOn(w.damage, p).lastTime
  {
    hide Step, SessionsOrdered, HitsOn;
    SessionsAfter(c, v, e);
    if e.Hit? {
      FedInOrder(v, e.damage, before);
    }
  }

  lemma SameTarget(v: View, w: View)
    requires TargetWasHit(v) && SameTimes(v.fights, w.fights)
    requires forall p :: HitsOn(v.damage, p).lastTime <= HitsOn(w.damage, p).lastTime
    ensures TargetWasHit(w)
  {
    if w.fights != [] {
      var f, g := v.fights[|v.fights| - 1], w.fights[|v.fights| - 1];
      assert g.begin == f.begin <= HitsOn(v.damage, f.initialTarget).lastTime;
    }
  }

  lemma ReportKeepsTarget(c: Setting, v: View, u: Update)
    requires AfterReport(c, v, u).Some? && TargetWasHit(v)
    ensures TargetWasHit(AfterReport(c, v, u).value)
  {
    hide Closest, WithReport, GoesOn, MayReadNil, LastHit, TeamGold;
  }

  lemma OpenedWasHit(c: Setting, v: View, e: Event, w: View)
    requires c.me in PLAYERS && Step(c, v, e) == Some(w) && Trigger(c, v, e).Opened?
             && SessionsOrdered(w.damage, e.Time())
    ensures TargetWasHit(w)
  {
    hide Step, Trigger, SessionsOrdered, ContinuousDamage.Add, ContinuousAttack.Add, FightOk;
    TriggerOpens(c, v, e);
    OpeningBegins(c, v, e);
    SessionsAfter(c, v, e);
    assert e.Hit? || e.Death? by {
      if e.Report? || e.Other? {
        NoTrigger(c, v, e);
      }
    }
    var g := w.fights[|v.fights|];
    assert g.begin == HitsOn(w.damage, g.initialTarget).startTime;
    StartsBeforeLast(w.damage, g.initialTarget, e.Time());
  }

  lemma StartsBeforeLast(damage: map<int, ContinuousDamage>, p: int, now: real)
    requires SessionsOrdered(damage, now)
    ensures HitsOn(damage, p).startTime <= HitsOn(damage, p).lastTime
  {
  }

  lemma {:induction false} RunHitsTargets(c: Setting, events: seq<Event>)
    requires c.me in PLAYERS && AfterZero(events) && TimeOrdered(events) && Run(c, events).Some?
    ensures TargetWasHit(Run(c, events).value)
  {
    hide AfterReport, AfterDamage, AfterDeath, SessionsOrdered, TargetWasHit, SameTimes, Trigger, HitsOn;
    if events == [] {
      NoTarget();
    } else {
      var n := |events| - 1;
      var v, e, w := Run(c, events[..n]).value, events[n], Run(c, events).value;
      RunHitsTargets(c, events[..n]);
      RunKeepsSessions(c, events[..n], e.Time());
      RunKeepsSessions(c, events, e.Time());
      NobodyLater(c, v, e, w, e.Time());
      if Trigger(c, v, e).Opened? {
        OpenedWasHit(c, v, e, w);
      } else {
        match e
        case Report(u) => ReportKeepsTarget(c, v, u);
        case Hit(t, wards) =>
          HitKeepsTimes(c, v, t, wards);
          SameTarget(v, w);
        case Death(p, sec, wards) =>
          DeathKeepsTimes(c, v, e);
          SameTarget(v, w);
        case Other(note, _) =>
          NoteKeepsTimes(v, note);
          SameTarget(v, w);
      }
    }
  }

  lemma NoteKeepsTimes(v: View, note: Note)
    ensures SameTimes(v.fights, AfterNote(v, note).fights)
  {
  }

  lemma NoTarget()
    ensures TargetWasHit(Start())
  {
  }

  /** With events in order, a fight ends before it begins only if the player it opened around takes no part in
      it, being dead already. */
  lemma {:induction false} EarlyEndsHaveNoTarget(c: Setting, events: seq<Event>, i: nat)
    requires c.me in PLAYERS && AfterZero(events) && TimeOrdered(events) && EndsEarlyAt(c, events, i)
    ensures var fights := Run(c, events[..i]).value.fights;
            fights != [] && fights[|fights| - 1].initialTarget !in fights[|fights| - 1].participants
  {
    hide Run, Closest, WithReport, GoesOn, HitsOn;
    var v := Run(c, events[..i]).value;
    RunHitsTargets(c, events[..i]);
    var f := v.fights[|v.fights| - 1];
    assert IsLastHit(f.participants, v.damage, LastHit(f.participants, v.damage));
  }

  lemma NearItself(s: Snapshot, p: int)
    requires IsKnown(s, p)
    ensures Near(s, p, p, PARTICIPANT_DISTANCE)
  {
  }

  /** The player a fight opens around takes part in it exactly when he is alive. */
  lemma TargetTakesPart(c: Setting, states: seq<Snapshot>, pID: int, start: real, triggerTime: real, wards: Wards)
    requires pID in PLAYERS && Opens(c, states, pID, start, triggerTime, wards).Opened?
    ensures pID in Opens(c, states, pID, start, triggerTime, wards).fight.participants <==>
            pID in states[Closest(states, triggerTime).value].alive
  {
    hide Closest, Near, IsKnown, OnTeam, CannotTell, AliveKnown, InSight, SumOver, RealSumOver, TeamGold;
    NearItself(states[Closest(states, triggerTime).value], pID);
  }
}
