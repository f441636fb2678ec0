/** Whole matches (lolstats-master/ingest/advanced_stats.go, team_fights.go): the team fight analysis folded
    over all events, what holds after any of them, and exactly when the program fails. */
module FightRuns {
  import opened History
  import opened Sight
  import opened TeamFights
  import opened Teams
  import opened Wrappers

  datatype Event =
    | Report(update: Update)
    | Hit(damage: Damage, wards: Wards)
    | Death(victimID: int, seconds: real, wards: Wards)
    | Other(note: Note, at: real)
  {
    /** It happens to one of the ten players. */
    predicate Ok() {
      match this
      case Report(u) => u.participantID in PLAYERS
      case Hit(t, _) => t.victimID in PLAYERS
      case Death(p, _, _) => p in PLAYERS
      case Other(note, _) => note.SpellCast? && IsSummonerSlot(note.slot) ==> note.attackerID in PLAYERS
    }

    function Time(): real {
      match this
      case Report(u) => u.seconds
      case Hit(t, _) => t.seconds
      case Death(_, sec, _) => sec
      case Other(_, sec) => sec
    }
  }

  ghost predicate AllOk(events: seq<Event>) {
    forall i :: 0 <= i < |events| ==> events[i].Ok()
  }

  /** The next view, if the program gets that far. */
  ghost function Step(c: Setting, v: View, e: Event): Option<View> {
    match e
    case Report(u) => AfterReport(c, v, u)
    case Hit(t, wards) => AfterDamage(c, v, t, wards)
    case Death(p, sec, wards) => AfterDeath(c, v, p, sec, wards)
    case Other(note, _) => Some(AfterNote(v, note))
  }

  /** The view after all events, unless the program fails on the way. */
  ghost function Run(c: Setting, events: seq<Event>): Option<View> {
    if events == [] then Some(Start())
    else
      match Run(c, events[..|events| - 1])
      case None => None
      case Some(v) => Step(c, v, events[|events| - 1])
  }

  /** One more event. */
  lemma RunExtends(c: Setting, events: seq<Event>, e: Event)
    ensures Run(c, events + [e]) == if Run(c, events) == None then None else Step(c, Run(c, events).value, e)
  {
    assert (events + [e])[..|events|] == events;
  }

  /** While there are no fights a report is just noted. */
  lemma ReportRuns(c: Setting, events: seq<Event>, u: Update)
    requires Run(c, events).Some? && Run(c, events).value.fights == []
    ensures var v := Run(c, events).value;
            Run(c, events + [Report(u)]) == Some(v.(states := WithReport(v.states, u)))
  {
    hide WithReport;
    assert (events + [Report(u)])[..|events|] == events;
  }

  lemma StepIsOk(c: Setting, v: View, e: Event)
    requires ViewOk(c, v) && e.Ok() && Step(c, v, e).Some?
    ensures var w := Step(c, v, e).value;
            ViewOk(c, w) && OnlyOpenChanges(v.fights, w.fights, c.matchDuration)
  {
    hide ViewOk, AfterReport, AfterDamage, AfterDeath, AfterNote, OnlyOpenChanges;
    match e
    case Report(u) => AfterReportOk(c, v, u);
    case Hit(t, wards) => AfterDamageOk(c, v, t, wards);
    case Death(p, sec, wards) => AfterDeathOk(c, v, p, sec, wards);
    case Other(note, _) =>
      AfterNoteOk(c, v, note);
      NothingChanges(c, v, note);
  }

  lemma NothingChanges(c: Setting, v: View, note: Note)
    ensures AfterNote(v, note).fights == v.fights && OnlyOpenChanges(v.fights, v.fights, c.matchDuration)
  {
  }

  lemma StartIsOk(c: Setting)
    requires c.me in PLAYERS
    ensures ViewOk(c, Start())
  {
  }

  /** Every recorded fight is as it should be, and the window is small. */
  lemma {:induction false} RunIsOk(c: Setting, events: seq<Event>)
    requires c.me in PLAYERS && AllOk(events) && Run(c, events).Some?
    ensures ViewOk(c, Run(c, events).value)
  {
    hide ViewOk, Step;
    if events == [] {
      StartIsOk(c);
    } else {
      RunIsOk(c, events[..|events| - 1]);
      StepIsOk(c, Run(c, events[..|events| - 1]).value, events[|events| - 1]);
    }
  }

  /** The step in which a run fails. */
  ghost predicate FailsAt(c: Setting, events: seq<Event>, i: nat) {
    i < |events| && Run(c, events[..i]).Some? && Step(c, Run(c, events[..i]).value, events[i]) == None
  }

  lemma {:induction false} RunFailsSomewhere(c: Setting, events: seq<Event>)
    ensures Run(c, events) == None <==> exists i: nat :: FailsAt(c, events, i)
  {
    hide Step;
    if events != [] {
      var n := |events| - 1;
      var front := events[..n];
      RunFailsSomewhere(c, front);
      if Run(c, front) == None {
        var i: nat :| FailsAt(c, front, i);
        assert events[..i] == front[..i];
        assert FailsAt(c, events, i);
      } else if Run(c, events) == None {
        assert FailsAt(c, events, n);
      }
      forall i: nat | FailsAt(c, events, i)
        ensures i == n || FailsAt(c, front, i)
      {
        assert i < n ==> events[..i] == front[..i];
      }
    }
  }

  lemma {:induction false} RunsThrough(c: Setting, events: seq<Event>, i: nat)
    requires i <= |events| && Run(c, events).Some?
    ensures Run(c, events[..i]).Some?
  {
    hide Step;
    if i == |events| {
      assert events[..i] == events;
    } else {
      var front := events[..|events| - 1];
      assert front[..i] == events[..i];
      RunsThrough(c, front, i);
    }
  }

  // ---------- What the steps do to the history ----------

  /** Nothing but damage, deaths, levels and the like is noted: places, times and gold stay. */
  ghost predicate Quiet(before: seq<Snapshot>, after: seq<Snapshot>) {
    |after| == |before| &&
    forall k :: 0 <= k < |before| ==>
                  && after[k].seconds == before[k].seconds && after[k].positions == before[k].positions
                  && after[k].goldAmount == before[k].goldAmount && after[k].goldSpent == before[k].goldSpent
                  && after[k].alive <= before[k].alive
  }

  lemma StruckKeepsStates(c: Setting, v: View, t: Damage, wards: Wards)
    requires Struck(c, v, t, wards).Some?
    ensures Struck(c, v, t, wards).value.states == v.states
    ensures Struck(c, v, t, wards).value.damage == v.damage && Struck(c, v, t, wards).value.attack == v.attack
  {
    hide Opens, WithDamage, WithFirstDamage;
  }

  lemma HitIsQuiet(c: Setting, v: View, t: Damage, wards: Wards)
    requires AfterDamage(c, v, t, wards).Some?
    ensures Quiet(v.states, AfterDamage(c, v, t, wards).value.states)
  {
    hide Closest, Struck, ContinuousDamage.Add, ContinuousAttack.Add;
    if TeamID(t.attackerID) != 0 {
      StruckKeepsStates(c, Fed(v, t), t, wards);
    } else {
      var i := Closest(v.states, t.seconds).value;
      StruckKeepsStates(c, Fed(v, t).(states := v.states[i := Hurt(v.states[i], t)]), t, wards);
    }
  }

  lemma DeathIsQuiet(c: Setting, v: View, p: int, seconds: real, wards: Wards)
    requires AfterDeath(c, v, p, seconds, wards).Some?
    ensures Quiet(v.states, AfterDeath(c, v, p, seconds, wards).value.states)
  {
    hide Mourned;
  }

  lemma NoteIsQuiet(v: View, note: Note)
    ensures Quiet(v.states, AfterNote(v, note).states)
  {
  }

  lemma OtherStepsAreQuiet(c: Setting, v: View, e: Event)
    requires !e.Report? && Step(c, v, e).Some?
    ensures Quiet(v.states, Step(c, v, e).value.states)
  {
    hide AfterDamage, AfterDeath, AfterNote, Quiet;
    match e
    case Hit(t, wards) => HitIsQuiet(c, v, t, wards);
    case Death(p, sec, wards) => DeathIsQuiet(c, v, p, sec, wards);
    case Other(note, _) => NoteIsQuiet(v, note);
  }

  lemma ReportStates(c: Setting, v: View, u: Update)
    requires AfterReport(c, v, u).Some?
    ensures AfterReport(c, v, u).value.states == WithReport(v.states, u)
  {
    hide Closest, WithReport, Reviewed, MayReadNil, GoesOn;
  }

  /** The snapshot that a report is noted in. */
  function Noting(states: seq<Snapshot>, seconds: real): Snapshot {
    if BelongsToNewest(states, seconds) then states[|states| - 1] else NextSnapshot(states, seconds)
  }

  lemma NewestReport(states: seq<Snapshot>, u: Update)
    requires Spaced(states) && WithinWindow(states)
    ensures var r := WithReport(states, u);
            r != [] && r[|r| - 1] == WithUpdate(Noting(states, u.seconds), u)
  {
    hide Spaced, WithinWindow, WithUpdate, Extended, NextSnapshot;
    ExtendedIsWindow(states, u.seconds);
  }

  // ---------- Triggers ----------

  /** The history with the damage of a turret or a monster in it. */
  ghost function Hurting(v: View, t: Damage): seq<Snapshot> {
    if TeamID(t.attackerID) != 0 || Closest(v.states, t.seconds) == None then v.states
    else
      var i := Closest(v.states, t.seconds).value;
      v.states[i := Hurt(v.states[i], t)]
  }

  /** When the damage session of the one who is hit or dies began. */
  function SessionStart(v: View, e: Event): real {
    match e
    case Hit(t, _) => HitsOn(Fed(v, t).damage, t.victimID).startTime
    case Death(p, _, _) => HitsOn(v.damage, p).startTime
    case _ => 0.0
  }

  /** What an event does as a trigger: serious damage and deaths are, while no fight is open. */
  ghost function Trigger(c: Setting, v: View, e: Event): Opening {
    match e
    case Hit(t, wards) =>
      if !IsOpen(v.fights, c.matchDuration) && IsSerious(HitsOn(Fed(v, t).damage, t.victimID)) then
        Opens(c, Hurting(v, t), t.victimID, SessionStart(v, e), t.seconds, wards)
      else NotOpened
    case Death(p, sec, wards) =>
      if !IsOpen(v.fights, c.matchDuration) then Opens(c, v.states, p, SessionStart(v, e), sec, wards) else NotOpened
    case _ => NotOpened
  }

  /** The history in which an event looks for its trigger. */
  ghost function Looking(v: View, e: Event): seq<Snapshot> {
    if e.Hit? then Hurting(v, e.damage) else v.states
  }

  /** A death, or serious damage, while no fight is open. */
  ghost predicate CanTrigger(c: Setting, v: View, e: Event) {
    && !IsOpen(v.fights, c.matchDuration)
    && (e.Death? || (e.Hit? && IsSerious(HitsOn(Fed(v, e.damage).damage, e.damage.victimID))))
  }

  function Victim(e: Event): int
    requires e.Hit? || e.Death?
  {
    if e.Hit? then e.damage.victimID else e.victimID
  }

  lemma TriggerIs(c: Setting, v: View, e: Event)
    requires e.Hit? || e.Death?
    ensures Trigger(c, v, e) ==
            if CanTrigger(c, v, e) then Opens(c, Looking(v, e), Victim(e), SessionStart(v, e), e.Time(), e.wards)
            else NotOpened
  {
    hide Opens, Hurting, ContinuousDamage.Add, ContinuousAttack.Add;
  }

  /** A fight that was just opened by an event. */
  ghost predicate IsOpenedBy(g: TeamFight, c: Setting, v: View, e: Event) {
    && Trigger(c, v, e).Opened?
    && var f := Trigger(c, v, e).fight;
    && g.begin == f.begin == SessionStart(v, e) && g.end == f.end == c.matchDuration
    && g.participants == f.participants && g.initialTarget == f.initialTarget
  }

  lemma HitOpens(c: Setting, v: View, t: Damage, wards: Wards)
    requires c.me in PLAYERS && AfterDamage(c, v, t, wards).Some?
    ensures var w, opening := AfterDamage(c, v, t, wards).value, Trigger(c, v, Hit(t, wards));
            if opening.Opened?
            then w.fights == v.fights + [WithDamage(WithFirstDamage(opening.fight, c.me, t), c.me, t)]
            else opening == NotOpened && |w.fights| == |v.fights|
  {
    hide Closest, Opens, WithDamage, WithFirstDamage, ContinuousDamage.Add, ContinuousAttack.Add, Hurt;
  }

  lemma FirstDamageAddsOnly(f: TeamFight, me: int, t: Damage)
    ensures var g := WithDamage(WithFirstDamage(f, me, t), me, t);
            g.begin == f.begin && g.end == f.end && g.participants == f.participants
            && g.initialTarget == f.initialTarget
  {
  }

  lemma DeathOpens(c: Setting, v: View, e: Event)
    requires e.Death? && c.me in PLAYERS && AfterDeath(c, v, e.victimID, e.seconds, e.wards).Some?
    ensures var w, opening := AfterDeath(c, v, e.victimID, e.seconds, e.wards).value, Trigger(c, v, e);
            if opening.Opened? then w.fights == v.fights + [WithDeath(opening.fight, c.me, e.victimID)]
            else opening == NotOpened && |w.fights| == |v.fights|
  {
    hide Opens, WithDeath;
  }

  lemma DeathAddsOnly(f: TeamFight, me: int, p: int)
    ensures var g := WithDeath(f, me, p);
            g.begin == f.begin && g.end == f.end && g.participants == f.participants
            && g.initialTarget == f.initialTarget
  {
  }

  lemma OpeningBegins(c: Setting, v: View, e: Event)
    requires c.me in PLAYERS && Trigger(c, v, e).Opened?
    ensures var f := Trigger(c, v, e).fight;
            f.begin == SessionStart(v, e) && f.end == c.matchDuration && FightOk(f, c.me)
            && f.initialTarget == if e.Hit? then e.damage.victimID else e.victimID
  {
    hide Opens, FightOk, Hurting, ContinuousDamage.Add, ContinuousAttack.Add;
    match e
    case Hit(t, wards) => OpenedIsOk(c, Hurting(v, t), t.victimID, SessionStart(v, e), t.seconds, wards);
    case Death(p, sec, wards) => OpenedIsOk(c, v.states, p, SessionStart(v, e), sec, wards);
  }

  /** An event adds a fight exactly when it opens one. */
  lemma TriggerOpens(c: Setting, v: View, e: Event)
    requires c.me in PLAYERS && Step(c, v, e).Some?
    ensures var w := Step(c, v, e).value;
            if Trigger(c, v, e).Opened?
            then
              && |w.fights| == |v.fights| + 1 && w.fights[..|v.fights|] == v.fights
              && IsOpenedBy(w.fights[|v.fights|], c, v, e)
            else |w.fights| == |v.fights|
  {
    hide AfterDamage, AfterDeath, Opens, Hurting, WithDamage, WithFirstDamage, WithDeath, ContinuousDamage.Add,
      ContinuousAttack.Add, Closest, Reviewed, Trigger, WithReport;
    if Trigger(c, v, e).Opened? {
      OpeningBegins(c, v, e);
    }
    match e
    case Report(u) => NoTrigger(c, v, e);
    case Hit(t, wards) =>
      HitOpens(c, v, t, wards);
      if Trigger(c, v, e).Opened? {
        FirstDamageAddsOnly(Trigger(c, v, e).fight, c.me, t);
      }
    case Death(p, sec, wards) =>
      DeathOpens(c, v, e);
      if Trigger(c, v, e).Opened? {
        DeathAddsOnly(Trigger(c, v, e).fight, c.me, p);
      }
    case Other(_, _) => NoTrigger(c, v, e);
  }

  lemma NoTrigger(c: Setting, v: View, e: Event)
    requires e.Report? || e.Other?
    ensures Trigger(c, v, e) == NotOpened
  {
  }

  // ---------- Gold ----------

  /** The gold readings of one player. */
  ghost function Readings(events: seq<Event>, p: int): seq<int> {
    if events == [] then []
    else
      var before, last := Readings(events[..|events| - 1], p), events[|events| - 1];
      if last.Report? && last.update.participantID == p then before + [last.update.gold] else before
  }

  ghost predicate GoldOk(states: seq<Snapshot>, p: int, readings: seq<int>) {
    if states == [] then readings == [] else GoldAccounted(states[|states| - 1], p, readings)
  }

  /** All gold of the match is accounted for. */
  ghost predicate AllGoldOk(states: seq<Snapshot>, events: seq<Event>) {
    forall player: int :: player in PLAYERS ==> GoldOk(states, player, Readings(events, player))
  }

  lemma QuietKeepsGold(states: seq<Snapshot>, r: seq<Snapshot>, p: int, readings: seq<int>)
    requires GoldOk(states, p, readings) && Quiet(states, r)
    ensures GoldOk(r, p, readings)
  {
  }

  lemma ReportKeepsGold(states: seq<Snapshot>, u: Update, p: int, readings: seq<int>)
    requires Spaced(states) && WithinWindow(states) && p in PLAYERS && GoldOk(states, p, readings)
    ensures GoldOk(WithReport(states, u), p, if p == u.participantID then readings + [u.gold] else readings)
  {
    hide Spaced, WithinWindow, WithReport, WithUpdate, Copy;
    NewestReport(states, u);
    if !BelongsToNewest(states, u.seconds) {
      if states == [] {
        NothingGained(u.seconds, p);
      } else {
        CopyKeepsGold(states[|states| - 1], u.seconds, p, readings);
      }
    }
    UpdateKeepsGold(Noting(states, u.seconds), u, p, readings);
  }

  lemma NothingGained(seconds: real, p: int)
    ensures GoldAccounted(Copy(seconds, None), p, [])
  {
  }

  /** After all events the newest snapshot accounts for all gold of every player. */
  lemma {:induction false} GoldOfTheMatch(c: Setting, events: seq<Event>, p: int)
    requires c.me in PLAYERS && AllOk(events) && Run(c, events).Some? && p in PLAYERS
    ensures GoldOk(Run(c, events).value.states, p, Readings(events, p))
  {
    hide GoldOk, Step, Quiet;
    if events == [] {
      NoGoldYet(p);
    } else {
      var n := |events| - 1;
      GoldOfTheMatch(c, events[..n], p);
      RunIsOk(c, events[..n]);
      var v, e := Run(c, events[..n]).value, events[n];
      if e.Report? {
        StepReports(c, v, e.update, e);
        ReportKeepsGold(v.states, e.update, p, Readings(events[..n], p));
      } else {
        OtherStepsAreQuiet(c, v, e);
        QuietKeepsGold(v.states, Step(c, v, e).value.states, p, Readings(events[..n], p));
      }
    }
  }

  lemma {:induction false} RunAccountsForGold(c: Setting, events: seq<Event>)
    requires c.me in PLAYERS && AllOk(events) && Run(c, events).Some?
    ensures AllGoldOk(Run(c, events).value.states, events)
  {
    hide GoldOk, Run, Readings;
    forall player: int | player in PLAYERS
      ensures GoldOk(Run(c, events).value.states, player, Readings(events, player))
    {
      GoldOfTheMatch(c, events, player);
    }
  }

  lemma NoGoldYet(p: int)
    ensures GoldOk([], p, [])
  {
  }

  lemma StepReports(c: Setting, v: View, u: Update, e: Event)
    requires e == Report(u) && ViewOk(c, v) && Step(c, v, e).Some?
    ensures Spaced(v.states) && WithinWindow(v.states)
    ensures Step(c, v, e).value.states == WithReport(v.states, u)
  {
    hide AfterReport, Spaced, WithinWindow, FightsOk;
    ReportStates(c, v, u);
  }

  // ---------- When fights can be seen ----------

  predicate ReadyForFights(states: seq<Snapshot>) {
    states != [] && Usable(states[|states| - 1])
  }

  /** The players reported so far. */
  ghost function Reporters(events: seq<Event>): set<int> {
    if events == [] then {}
    else
      var before, last := Reporters(events[..|events| - 1]), events[|events| - 1];
      if last.Report? then before + {last.update.participantID} else before
  }

  /** When the first report came. */
  ghost function FirstReport(events: seq<Event>): Option<real> {
    if events == [] then None
    else
      var before, last := FirstReport(events[..|events| - 1]), events[|events| - 1];
      if before == None && last.Report? then Some(last.update.seconds) else before
  }

  /** A report at least a quarter of a second after the first one. */
  predicate ComesLater(e: Event, first: Option<real>) {
    first.Some? && e.Report? && e.update.seconds >= first.value + WINDOW_GRANULARITY
  }

  ghost predicate HasLaterReport(events: seq<Event>) {
    events != [] && (HasLaterReport(events[..|events| - 1])
                     || ComesLater(events[|events| - 1], FirstReport(events[..|events| - 1])))
  }

  /** Some report came at least a quarter of a second after the first one, or all ten players have been
      reported. */
  ghost predicate UsableAfter(events: seq<Event>) {
    HasLaterReport(events) || Reporters(events) == PLAYERS
  }

  /** Until a later report comes there is one snapshot with the positions reported; afterwards the newest
      snapshot has ten entries, and those are known that have been reported. */
  ghost predicate Remembers(events: seq<Event>, states: seq<Snapshot>) {
    && (FirstReport(events) == None ==> states == [] && Reporters(events) == {} && !HasLaterReport(events))
    && (FirstReport(events).Some? ==>
          && states != []
          && (forall p :: p in Reporters(events) <==> IsKnown(states[|states| - 1], p))
          && if HasLaterReport(events) then states[|states| - 1].positions.Keys == PLAYERS
             else |states| == 1 && states[0].seconds == FirstReport(events).value
                  && states[0].positions.Keys == Reporters(events))
  }

  lemma QuietKeepsMemory(events: seq<Event>, e: Event, states: seq<Snapshot>, r: seq<Snapshot>)
    requires Remembers(events, states) && Quiet(states, r) && !e.Report?
    ensures Remembers(events + [e], r)
  {
    assert (events + [e])[..|events|] == events;
  }

  lemma UpdateKnows(s: Snapshot, u: Update)
    ensures WithUpdate(s, u).positions.Keys == s.positions.Keys + {u.participantID}
    ensures forall p :: IsKnown(WithUpdate(s, u), p) <==> p == u.participantID || IsKnown(s, p)
    ensures WithUpdate(s, u).seconds == s.seconds
  {
  }

  lemma CopyKnows(s: Snapshot, seconds: real)
    ensures Copy(seconds, Some(s)).positions.Keys == PLAYERS
    ensures forall p :: IsKnown(Copy(seconds, Some(s)), p) <==> p in PLAYERS && IsKnown(s, p)
  {
    CopiedPositions(s, seconds);
    hide Copy;
  }

  lemma CopiedPositions(s: Snapshot, seconds: real)
    ensures var places := Copy(seconds, Some(s)).positions;
            && places.Keys == PLAYERS
            && forall p <- PLAYERS :: places[p] == if p in s.positions then s.positions[p] else None
  {
  }

  lemma FirstCopy(seconds: real)
    ensures Copy(seconds, None).positions.Keys == {} && Copy(seconds, None).seconds == seconds
  {
  }

  lemma {:induction false} ReportersArePlayers(events: seq<Event>)
    requires AllOk(events)
    ensures Reporters(events) <= PLAYERS
  {
    if events != [] {
      ReportersArePlayers(events[..|events| - 1]);
    }
  }

  lemma AnotherReport(events: seq<Event>, u: Update)
    ensures var more := events + [Report(u)];
            && Reporters(more) == Reporters(events) + {u.participantID}
            && FirstReport(more) == (if FirstReport(events) == None then Some(u.seconds) else FirstReport(events))
            && HasLaterReport(more) == (HasLaterReport(events) || ComesLater(Report(u), FirstReport(events)))
  {
    assert (events + [Report(u)])[..|events|] == events;
  }

  /** A report that belongs to the newest snapshot. */
  lemma ReportKeepsMemory(events: seq<Event>, u: Update, states: seq<Snapshot>)
    requires Spaced(states) && WithinWindow(states) && AllOk(events) && u.participantID in PLAYERS
    requires Remembers(events, states)
    ensures Remembers(events + [Report(u)], WithReport(states, u))
  {
    hide Spaced, WithinWindow, WithUpdate, Copy, Extended, WithReport, IsKnown;
    NewestReport(states, u);
    ReportersArePlayers(events);
    AnotherReport(events, u);
    var s := Noting(states, u.seconds);
    UpdateKnows(s, u);
    if states == [] {
      FirstCopy(u.seconds);
      FirstReportAlone(states, u);
    } else if BelongsToNewest(states, u.seconds) {
      SameLength(states, u);
    } else {
      CopyKnows(states[|states| - 1], u.seconds);
      assert PLAYERS + {u.participantID} == PLAYERS;
    }
  }

  lemma SameLength(states: seq<Snapshot>, u: Update)
    requires BelongsToNewest(states, u.seconds)
    ensures |WithReport(states, u)| == |states|
  {
  }

  lemma FirstReportAlone(states: seq<Snapshot>, u: Update)
    requires states == []
    ensures |WithReport(states, u)| == 1
    ensures forall p :: !IsKnown(Noting(states, u.seconds), p)
  {
  }

  lemma {:induction false} RunRemembers(c: Setting, events: seq<Event>)
    requires c.me in PLAYERS && AllOk(events) && Run(c, events).Some?
    ensures Remembers(events, Run(c, events).value.states)
  {
    hide Step, Quiet, Remembers;
    if events == [] {
      NothingToRemember();
    } else {
      var n := |events| - 1;
      var front, e := events[..n], events[n];
      assert events == front + [e];
      RunRemembers(c, front);
      RunIsOk(c, front);
      var v := Run(c, front).value;
      if e.Report? {
        StepReports(c, v, e.update, e);
        ReportKeepsMemory(front, e.update, v.states);
      } else {
        OtherStepsAreQuiet(c, v, e);
        QuietKeepsMemory(front, e, v.states, Step(c, v, e).value.states);
      }
    }
  }

  lemma NothingToRemember()
    ensures Remembers([], [])
  {
  }

  lemma FullSet(keys: set<int>)
    requires keys <= PLAYERS
    ensures |keys| == 10 <==> keys == PLAYERS
  {
    TenPlayers();
    assert |PLAYERS - keys| == |PLAYERS| - |keys|;
  }

  lemma MemoryIsReady(events: seq<Event>, states: seq<Snapshot>)
    requires Remembers(events, states) && Reporters(events) <= PLAYERS
    ensures ReadyForFights(states) <==> UsableAfter(events)
  {
    hide IsKnown, FirstReport, HasLaterReport, Reporters;
    if states == [] {
      assert 1 in PLAYERS;
    } else {
      FullSet(states[|states| - 1].positions.Keys);
    }
  }

  /** Fights can be seen exactly when a report came at least a quarter of a second after the first one, even
      if it was of the same player, or all ten players have been reported. */
  lemma {:induction false} ReadyExactly(c: Setting, events: seq<Event>)
    requires c.me in PLAYERS && AllOk(events) && Run(c, events).Some?
    ensures ReadyForFights(Run(c, events).value.states) <==> UsableAfter(events)
  {
    hide Remembers, UsableAfter, ReadyForFights, Run;
    RunRemembers(c, events);
    ReportersArePlayers(events);
    MemoryIsReady(events, Run(c, events).value.states);
  }

  /** A player is known in the newest snapshot exactly when he has been reported. */
  lemma {:induction false} KnownOnceReported(c: Setting, events: seq<Event>, p: int)
    requires c.me in PLAYERS && AllOk(events) && Run(c, events).Some? && Run(c, events).value.states != []
    ensures var states := Run(c, events).value.states;
            IsKnown(states[|states| - 1], p) <==> p in Reporters(events)
  {
    RunRemembers(c, events);
  }
}
