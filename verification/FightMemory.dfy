/** What the team fight analysis remembers (lolstats-master/ingest/team_fights.go): after any events, the newest
    snapshot says of every player what the events since the first report say, and the damage session of a
    player is made of the hits since the last pause. */
module FightMemory {
  import opened FightRuns
  import opened History
  import opened Sight
  import opened TeamFights
  import opened Teams
  import opened Wrappers

  // ---------- What the events say of a player ----------

  /** Nothing is noted before the first position report. */
  ghost predicate HasBegun(events: seq<Event>) {
    events != [] && (events[|events| - 1].Report? || HasBegun(events[..|events| - 1]))
  }

  ghost predicate ReportOf(e: Event, p: int) {
    e.Report? && e.update.participantID == p
  }

  ghost function DiedAt(events: seq<Event>, p: int): real {
    if events == [] then 0.0
    else
      var front, e := events[..|events| - 1], events[|events| - 1];
      if e.Death? && e.victimID == p && HasBegun(front) then e.seconds else DiedAt(front, p)
  }

  /** Alive until he dies, and again once a report gives him health that is not older than two seconds before the
      death. */
  ghost predicate LivesAfter(events: seq<Event>, p: int) {
    events == [] ||
    var front, e := events[..|events| - 1], events[|events| - 1];
    if e.Death? && e.victimID == p && HasBegun(front) then false
    else if ReportOf(e, p) && e.update.health > 0.0 && e.update.seconds + 2.0 > DiedAt(front, p) then true
    else LivesAfter(front, p)
  }

  ghost function LevelAfter(events: seq<Event>, p: int): int {
    if events == [] then 1
    else
      var front, e := events[..|events| - 1], events[|events| - 1];
      LevelAfter(front, p) + if HasBegun(front) && e.Other? && e.note == LevelUp(p) then 1 else 0
  }

  /** The last report of a player. */
  ghost function LastReport(events: seq<Event>, p: int): Option<Update> {
    if events == [] then None
    else if ReportOf(events[|events| - 1], p) then Some(events[|events| - 1].update)
    else LastReport(events[..|events| - 1], p)
  }

  /** When each summoner spell can be cast again. */
  ghost function SpellsAfter(events: seq<Event>, p: int): map<string, real> {
    if events == [] then map["Summoner1" := 0.0, "Summoner2" := 0.0]
    else
      var front, e := events[..|events| - 1], events[|events| - 1];
      var before := SpellsAfter(front, p);
      if HasBegun(front) && e.Other? && e.note.SpellCast? && e.note.attackerID == p && IsSummonerSlot(e.note.slot)
      then before[e.note.slot := e.note.expires] else before
  }

  ghost predicate HasFallen(events: seq<Event>, turret: int) {
    events != [] &&
    var front, e := events[..|events| - 1], events[|events| - 1];
    HasFallen(front, turret) || (HasBegun(front) && e.Other? && e.note == TurretKill(turret))
  }

  /** The snapshot says of the player what the events say. */
  ghost predicate Agrees(s: Snapshot, events: seq<Event>, p: int) {
    && (p in s.alive <==> LivesAfter(events, p))
    && Value(s.lastDeathTime, p) == DiedAt(events, p)
    && Amount(s.levels, p) == LevelAfter(events, p)
    && Spells(s, p) == SpellsAfter(events, p)
    && match LastReport(events, p)
       case None => !IsKnown(s, p) && Value(s.health, p) == 0.0 && Amount(s.goldAmount, p) == 0
       case Some(u) =>
         && p in s.positions && s.positions[p] == Some(u.position)
         && Value(s.health, p) == u.healthPercent && Amount(s.goldAmount, p) == u.gold
  }

  ghost predicate NewestAgrees(states: seq<Snapshot>, events: seq<Event>) {
    && (states != [] <==> HasBegun(events))
    && (states != [] ==> AllAgree(states[|states| - 1], events))
  }

  ghost predicate AllAgree(s: Snapshot, events: seq<Event>) {
    && (forall p: int :: p in PLAYERS ==> Agrees(s, events, p))
    && (forall turret: int :: turret in s.deadTurrets <==> HasFallen(events, turret))
  }

  // ---------- Reports ----------

  lemma NewReport(s: Snapshot, events: seq<Event>, u: Update, p: int)
    requires Agrees(s, events, p)
    ensures Agrees(WithUpdate(s, u), events + [Report(u)], p)
  {
    assert (events + [Report(u)])[..|events|] == events;
  }

  lemma CopyAgrees(s: Snapshot, events: seq<Event>, seconds: real, p: int)
    requires Agrees(s, events, p) && p in PLAYERS
    ensures Agrees(Copy(seconds, Some(s)), events, p)
  {
    hide LivesAfter, DiedAt, LevelAfter, SpellsAfter, LastReport;
  }

  /** Before the first report the events say nothing. */
  lemma {:induction false} NothingSaid(events: seq<Event>, seconds: real, p: int)
    requires !HasBegun(events) && p in PLAYERS
    ensures Agrees(Copy(seconds, None), events, p)
  {
    if events != [] {
      NothingSaid(events[..|events| - 1], seconds, p);
    }
  }

  lemma {:induction false} NoTurretYet(events: seq<Event>, turret: int)
    requires !HasBegun(events)
    ensures !HasFallen(events, turret)
  {
    if events != [] {
      NoTurretYet(events[..|events| - 1], turret);
    }
  }

  lemma FallenStays(events: seq<Event>, e: Event, turret: int)
    ensures HasFallen(events + [e], turret) <==>
            HasFallen(events, turret) || (HasBegun(events) && e.Other? && e.note == TurretKill(turret))
    ensures HasBegun(events + [e]) <==> HasBegun(events) || e.Report?
  {
    assert (events + [e])[..|events|] == events;
  }

  lemma NotingAgrees(states: seq<Snapshot>, events: seq<Event>, seconds: real)
    requires NewestAgrees(states, events)
    ensures AllAgree(Noting(states, seconds), events)
  {
    hide Agrees, HasFallen, Copy, HasBegun;
    forall p: int | p in PLAYERS
      ensures Agrees(Noting(states, seconds), events, p)
    {
      if states == [] {
        NothingSaid(events, seconds, p);
      } else {
        CopyAgrees(states[|states| - 1], events, seconds, p);
      }
    }
    forall turret: int
      ensures turret in Noting(states, seconds).deadTurrets <==> HasFallen(events, turret)
    {
      if states == [] {
        NoTurretYet(events, turret);
      }
      SameTurrets(states, seconds);
    }
  }

  lemma SameTurrets(states: seq<Snapshot>, seconds: real)
    ensures Noting(states, seconds).deadTurrets == if states == [] then {} else states[|states| - 1].deadTurrets
  {
  }

  lemma ReportAgrees(states: seq<Snapshot>, events: seq<Event>, u: Update)
    requires Spaced(states) && WithinWindow(states) && NewestAgrees(states, events)
    ensures NewestAgrees(WithReport(states, u), events + [Report(u)])
  {
    hide Agrees, HasFallen, HasBegun, WithReport, Spaced, WithinWindow, Noting;
    NewestReport(states, u);
    NotingAgrees(states, events, u.seconds);
    var s := Noting(states, u.seconds);
    forall p: int | p in PLAYERS
      ensures Agrees(WithUpdate(s, u), events + [Report(u)], p)
    {
      NewReport(s, events, u, p);
    }
    forall turret: int
      ensures turret in WithUpdate(s, u).deadTurrets <==> HasFallen(events + [Report(u)], turret)
    {
      FallenStays(events, Report(u), turret);
    }
    FallenStays(events, Report(u), 0);
  }

  // ---------- Other events ----------

  /** A snapshot that differs in the damage of turrets and monsters alone. */
  ghost predicate SameButDamage(s: Snapshot, r: Snapshot) {
    r == s.(neutralDamage := r.neutralDamage)
  }

  lemma HitAgrees(c: Setting, v: View, events: seq<Event>, e: Event)
    requires e.Hit? && AfterDamage(c, v, e.damage, e.wards).Some? && NewestAgrees(v.states, events)
    ensures NewestAgrees(AfterDamage(c, v, e.damage, e.wards).value.states, events + [e])
  {
    hide Agrees, HasFallen, HasBegun, AfterDamage, AllAgree;
    var r := AfterDamage(c, v, e.damage, e.wards).value.states;
    HitOnlyHurts(c, v, e.damage, e.wards);
    FallenStays(events, e, 0);
    if v.states != [] {
      SaysTheSame(v.states[|v.states| - 1], r[|r| - 1], events, e);
    }
  }

  lemma HitOnlyHurts(c: Setting, v: View, t: Damage, wards: Wards)
    requires AfterDamage(c, v, t, wards).Some?
    ensures var r := AfterDamage(c, v, t, wards).value.states;
            |r| == |v.states| && forall k :: 0 <= k < |r| ==> SameButDamage(v.states[k], r[k])
  {
    hide Closest, Struck, ContinuousDamage.Add, ContinuousAttack.Add;
    if TeamID(t.attackerID) != 0 {
      StruckKeepsStates(c, Fed(v, t), t, wards);
    } else {
      var i := Closest(v.states, t.seconds).value;
      StruckKeepsStates(c, Fed(v, t).(states := v.states[i := Hurt(v.states[i], t)]), t, wards);
    }
  }

  lemma SaysTheSame(s: Snapshot, r: Snapshot, events: seq<Event>, e: Event)
    requires AllAgree(s, events) && e.Hit? && SameButDamage(s, r)
    ensures AllAgree(r, events + [e])
  {
    hide HasFallen, HasBegun;
    assert (events + [e])[..|events|] == events;
    forall p: int | p in PLAYERS
      ensures Agrees(r, events + [e], p)
    {
      assert Agrees(s, events, p);
    }
    forall turret: int
      ensures turret in r.deadTurrets <==> HasFallen(events + [e], turret)
    {
      FallenStays(events, e, turret);
    }
  }

  lemma DeathAgrees(states: seq<Snapshot>, events: seq<Event>, e: Event)
    requires e.Death? && NewestAgrees(states, events)
    ensures NewestAgrees(WithoutPlayer(states, e.victimID, e.seconds), events + [e])
  {
    hide HasFallen, HasBegun;
    FallenStays(events, e, 0);
    assert (events + [e])[..|events|] == events;
    if states != [] {
      var s := states[|states| - 1];
      var r := WithoutPlayer(states, e.victimID, e.seconds)[|states| - 1];
      forall p: int | p in PLAYERS
        ensures Agrees(r, events + [e], p)
      {
        assert Agrees(s, events, p);
      }
      forall turret: int
        ensures turret in r.deadTurrets <==> HasFallen(events + [e], turret)
      {
        FallenStays(events, e, turret);
      }
    }
  }

  lemma NotedAgrees(s: Snapshot, events: seq<Event>, e: Event, p: int)
    requires e.Other? && HasBegun(events) && Agrees(s, events, p)
    ensures Agrees(Noted(s, e.note), events + [e], p)
  {
    hide HasBegun, LivesAfter, DiedAt, LevelAfter, SpellsAfter, LastReport, IsSummonerSlot, Noted, Amount, Value,
      Spells;
    NoteSays(events, e, p);
    NoteChanges(s, e.note, p);
  }

  lemma NoteChanges(s: Snapshot, note: Note, p: int)
    ensures var r := Noted(s, note);
            && r == s.(levels := r.levels, spells := r.spells, deadTurrets := r.deadTurrets)
            && Amount(r.levels, p) == Amount(s.levels, p) + (if note == LevelUp(p) then 1 else 0)
            && Spells(r, p) == if note.SpellCast? && note.attackerID == p && IsSummonerSlot(note.slot)
                               then Spells(s, p)[note.slot := note.expires] else Spells(s, p)
  {
    hide IsSummonerSlot;
  }

  lemma NoteSays(events: seq<Event>, e: Event, p: int)
    requires e.Other? && HasBegun(events)
    ensures var more := events + [e];
            && (LivesAfter(more, p) <==> LivesAfter(events, p)) && DiedAt(more, p) == DiedAt(events, p)
            && LastReport(more, p) == LastReport(events, p)
            && LevelAfter(more, p) == LevelAfter(events, p) + (if e.note == LevelUp(p) then 1 else 0)
            && SpellsAfter(more, p) ==
               if e.note.SpellCast? && e.note.attackerID == p && IsSummonerSlot(e.note.slot)
               then SpellsAfter(events, p)[e.note.slot := e.note.expires] else SpellsAfter(events, p)
  {
    hide HasBegun, IsSummonerSlot;
    assert (events + [e])[..|events|] == events;
  }

  lemma NoteAgrees(v: View, events: seq<Event>, e: Event)
    requires e.Other? && NewestAgrees(v.states, events)
    ensures NewestAgrees(AfterNote(v, e.note).states, events + [e])
  {
    hide HasFallen, HasBegun, Agrees;
    FallenStays(events, e, 0);
    if v.states != [] {
      var s := v.states[|v.states| - 1];
      forall p: int | p in PLAYERS
        ensures Agrees(Noted(s, e.note), events + [e], p)
      {
        NotedAgrees(s, events, e, p);
      }
      forall turret: int
        ensures turret in Noted(s, e.note).deadTurrets <==> HasFallen(events + [e], turret)
      {
        FallenStays(events, e, turret);
      }
    }
  }

  lemma StepAgrees(c: Setting, v: View, events: seq<Event>, e: Event)
    requires Spaced(v.states) && WithinWindow(v.states) && Step(c, v, e).Some? && NewestAgrees(v.states, events)
    ensures NewestAgrees(Step(c, v, e).value.states, events + [e])
  {
    hide NewestAgrees, AfterReport, AfterDamage, Mourned, AfterNote, Spaced, WithinWindow;
    match e
    case Report(u) =>
      ReportStates(c, v, u);
      ReportAgrees(v.states, events, u);
    case Hit(_, _) => HitAgrees(c, v, events, e);
    case Death(_, _, _) => DeathAgrees(v.states, events, e);
    case Other(_, _) => NoteAgrees(v, events, e);
  }

  /** After any events, whether each player lives, when he died, his level, his spells, his last report and the turrets
      lost are in the newest snapshot as the events say. */
  lemma {:induction false} NewestSaysWhatHappened(c: Setting, events: seq<Event>)
    requires c.me in PLAYERS && AllOk(events) && Run(c, events).Some?
    ensures NewestAgrees(Run(c, events).value.states, events)
  {
    hide NewestAgrees, Step, FightsOk, Spaced, WithinWindow;
    if events == [] {
      NothingNoted();
    } else {
      var front, e := events[..|events| - 1], events[|events| - 1];
      NewestSaysWhatHappened(c, front);
      RunIsOk(c, front);
      StepAgrees(c, Run(c, front).value, front, e);
      assert front + [e] == events;
    }
  }

  lemma NothingNoted()
    ensures NewestAgrees([], [])
  {
  }

  // ---------- Damage sessions ----------

  /** The hits on a player, in order. */
  ghost function HitsTaken(events: seq<Event>, p: int): seq<Damage> {
    if events == [] then []
    else
      var front, e := HitsTaken(events[..|events| - 1], p), events[|events| - 1];
      if e.Hit? && e.damage.victimID == p then front + [e.damage] else front
  }

  ghost function SecondsBefore(hits: seq<Damage>, i: nat): real
    requires i <= |hits|
  {
    if i == 0 then 0.0 else hits[i - 1].seconds
  }

  /** The damage of the hits from the `k`th on. */
  ghost function TotalFrom(hits: seq<Damage>, k: nat): real {
    if |hits| <= k then 0.0 else TotalFrom(hits[..|hits| - 1], k) + hits[|hits| - 1].percent
  }

  /** How many of the hits from the `k`th on come later than the one before, the others being at the same moment. */
  ghost function MomentsFrom(hits: seq<Damage>, k: nat): int {
    if |hits| <= k then 0
    else
      var n := |hits| - 1;
      MomentsFrom(hits[..n], k) + if hits[n].seconds > SecondsBefore(hits, n) then 1 else 0
  }

  /** The session is that of the hits from the `k`th on, after the last pause of three seconds; if there was none, it
      is that of all of them, from the beginning of the match. */
  ghost predicate IsSessionFrom(d: ContinuousDamage, hits: seq<Damage>, k: nat) {
    && k < |hits|
    && (forall i :: k < i < |hits| ==> hits[i].seconds - SecondsBefore(hits, i) < 3.0)
    && (if hits[k].seconds - SecondsBefore(hits, k) >= 3.0 then d.startTime == hits[k].seconds
        else k == 0 && d.startTime == 0.0)
    && d.lastTime == hits[|hits| - 1].seconds
    && d.totalPercent == TotalFrom(hits, k) && d.numEvents == MomentsFrom(hits, k)
  }

  ghost predicate IsSession(d: ContinuousDamage, hits: seq<Damage>) {
    if hits == [] then d == ContinuousDamage(0.0, 0.0, 0.0, 0) else exists k: nat :: IsSessionFrom(d, hits, k)
  }

  lemma MoreHits(hits: seq<Damage>, t: Damage, k: nat)
    requires k <= |hits|
    ensures TotalFrom(hits + [t], k) == TotalFrom(hits, k) + t.percent
    ensures MomentsFrom(hits + [t], k) ==
            MomentsFrom(hits, k) + if t.seconds > SecondsBefore(hits, |hits|) then 1 else 0
    ensures forall i :: 0 <= i <= |hits| ==> SecondsBefore(hits + [t], i) == SecondsBefore(hits, i)
  {
    assert (hits + [t])[..|hits|] == hits;
  }

  lemma SessionGoesOn(d: ContinuousDamage, hits: seq<Damage>, t: Damage, k: nat)
    requires IsSessionFrom(d, hits, k) && t.seconds - d.lastTime < 3.0
    ensures IsSessionFrom(d.Add(t.seconds, t.percent), hits + [t], k)
  {
    hide TotalFrom, MomentsFrom;
    MoreHits(hits, t, k);
    var more := hits + [t];
    forall i | k < i < |more|
      ensures more[i].seconds - SecondsBefore(more, i) < 3.0
    {
      assert SecondsBefore(more, i) == SecondsBefore(hits, i);
      assert i < |hits| ==> more[i] == hits[i];
    }
  }

  lemma SessionStarts(d: ContinuousDamage, hits: seq<Damage>, t: Damage)
    requires IsSession(d, hits) && (hits == [] || t.seconds - d.lastTime >= 3.0)
    ensures IsSessionFrom(d.Add(t.seconds, t.percent), hits + [t], |hits|)
  {
    MoreHits(hits, t, |hits|);
    if hits != [] {
      var k: nat :| IsSessionFrom(d, hits, k);
    }
  }

  lemma HitFeedsSession(d: ContinuousDamage, hits: seq<Damage>, t: Damage)
    requires IsSession(d, hits)
    ensures IsSession(d.Add(t.seconds, t.percent), hits + [t])
  {
    hide IsSessionFrom, ContinuousDamage.Add;
    if hits != [] && t.seconds - d.lastTime < 3.0 {
      var k: nat :| IsSessionFrom(d, hits, k);
      SessionGoesOn(d, hits, t, k);
    } else {
      SessionStarts(d, hits, t);
    }
  }

  lemma HitsTakenGrow(events: seq<Event>, e: Event, p: int)
    ensures HitsTaken(events + [e], p) ==
            if e.Hit? && e.damage.victimID == p then HitsTaken(events, p) + [e.damage] else HitsTaken(events, p)
  {
    assert (events + [e])[..|events|] == events;
  }

  lemma StepFeeds(c: Setting, v: View, e: Event, p: int)
    requires Step(c, v, e).Some?
    ensures HitsOn(Step(c, v, e).value.damage, p) ==
            if e.Hit? && e.damage.victimID == p then HitsOn(v.damage, p).Add(e.damage.seconds, e.damage.percent)
            else HitsOn(v.damage, p)
  {
    hide Closest, WithReport, Reviewed, MayReadNil, GoesOn, Mourned, Struck, ContinuousDamage.Add, ContinuousAttack.Add,
      Noted;
    if e.Hit? {
      var t, w := e.damage, Fed(v, e.damage);
      if TeamID(t.attackerID) != 0 {
        StruckKeepsStates(c, w, t, e.wards);
      } else {
        var i := Closest(v.states, t.seconds).value;
        StruckKeepsStates(c, w.(states := v.states[i := Hurt(v.states[i], t)]), t, e.wards);
      }
    }
  }

  /** After any events, the damage session of a player is what his hits since the last pause add up to. */
  lemma {:induction false} SessionsAddUp(c: Setting, events: seq<Event>, p: int)
    requires Run(c, events).Some?
    ensures IsSession(HitsOn(Run(c, events).value.damage, p), HitsTaken(events, p))
  {
    hide Step, IsSession, ContinuousDamage.Add;
    if events == [] {
      NoSessionYet(p);
    } else {
      var front, e := events[..|events| - 1], events[|events| - 1];
      SessionsAddUp(c, front, p);
      StepFeeds(c, Run(c, front).value, e, p);
      HitsTakenGrow(front, e, p);
      assert front + [e] == events;
      if e.Hit? && e.damage.victimID == p {
        HitFeedsSession(HitsOn(Run(c, front).value.damage, p), HitsTaken(front, p), e.damage);
      }
    }
  }

  lemma NoSessionYet(p: int)
    ensures IsSession(HitsOn(Start().damage, p), [])
  {
  }

  // ---------- Attack sessions ----------

  /** The hits that a champion makes, in order. */
  ghost function HitsMade(events: seq<Event>, p: int): seq<Damage> {
    if events == [] then []
    else
      var front, e := HitsMade(events[..|events| - 1], p), events[|events| - 1];
      if e.Hit? && e.damage.attackerID == p && TeamID(p) != 0 then front + [e.damage] else front
  }

  ghost predicate IsAttackFrom(d: ContinuousAttack, hits: seq<Damage>, k: nat) {
    && k < |hits|
    && (forall i :: k < i < |hits| ==> hits[i].seconds - SecondsBefore(hits, i) < 3.0)
    && (if hits[k].seconds - SecondsBefore(hits, k) >= 3.0 then d.startTime == hits[k].seconds
        else k == 0 && d.startTime == 0.0)
    && d.lastTime == hits[|hits| - 1].seconds
  }

  ghost predicate IsAttack(d: ContinuousAttack, hits: seq<Damage>) {
    if hits == [] then d == ContinuousAttack(0.0, 0.0) else exists k: nat :: IsAttackFrom(d, hits, k)
  }

  lemma AttackGoesOn(d: ContinuousAttack, hits: seq<Damage>, t: Damage, k: nat)
    requires IsAttackFrom(d, hits, k) && t.seconds - d.lastTime < 3.0
    ensures IsAttackFrom(d.Add(t.seconds), hits + [t], k)
  {
    MoreHits(hits, t, k);
    var more := hits + [t];
    forall i | k < i < |more|
      ensures more[i].seconds - SecondsBefore(more, i) < 3.0
    {
      assert SecondsBefore(more, i) == SecondsBefore(hits, i);
      assert i < |hits| ==> more[i] == hits[i];
    }
  }

  lemma AttackStarts(d: ContinuousAttack, hits: seq<Damage>, t: Damage)
    requires IsAttack(d, hits) && (hits == [] || t.seconds - d.lastTime >= 3.0)
    ensures IsAttackFrom(d.Add(t.seconds), hits + [t], |hits|)
  {
    MoreHits(hits, t, |hits|);
    if hits != [] {
      var k: nat :| IsAttackFrom(d, hits, k);
    }
  }

  lemma HitFeedsAttack(d: ContinuousAttack, hits: seq<Damage>, t: Damage)
    requires IsAttack(d, hits)
    ensures IsAttack(d.Add(t.seconds), hits + [t])
  {
    hide IsAttackFrom, ContinuousAttack.Add;
    if hits != [] && t.seconds - d.lastTime < 3.0 {
      var k: nat :| IsAttackFrom(d, hits, k);
      AttackGoesOn(d, hits, t, k);
    } else {
      AttackStarts(d, hits, t);
    }
  }

  lemma StepFeedsAttack(c: Setting, v: View, e: Event, p: int)
    requires Step(c, v, e).Some?
    ensures HitsBy(Step(c, v, e).value.attack, p) ==
            if e.Hit? && e.damage.attackerID == p && TeamID(p) != 0 then HitsBy(v.attack, p).Add(e.damage.seconds)
            else HitsBy(v.attack, p)
  {
    hide Closest, WithReport, Reviewed, MayReadNil, GoesOn, Mourned, Struck, ContinuousDamage.Add, ContinuousAttack.Add,
      Noted;
    if e.Hit? {
      var t, w := e.damage, Fed(v, e.damage);
      if TeamID(t.attackerID) != 0 {
        StruckKeepsStates(c, w, t, e.wards);
      } else {
        var i := Closest(v.states, t.seconds).value;
        StruckKeepsStates(c, w.(states := v.states[i := Hurt(v.states[i], t)]), t, e.wards);
      }
    }
  }

  lemma HitsMadeGrow(events: seq<Event>, e: Event, p: int)
    ensures HitsMade(events + [e], p) ==
            if e.Hit? && e.damage.attackerID == p && TeamID(p) != 0 then HitsMade(events, p) + [e.damage]
            else HitsMade(events, p)
  {
    assert (events + [e])[..|events|] == events;
  }

  /** After any events, the attack session of a champion is that of his hits since the last pause. */
  lemma {:induction false} AttacksAddUp(c: Setting, events: seq<Event>, p: int)
    requires Run(c, events).Some?
    ensures IsAttack(HitsBy(Run(c, events).value.attack, p), HitsMade(events, p))
  {
    hide Step, IsAttack, ContinuousAttack.Add, TeamID;
    if events == [] {
      NoAttackYet(p);
    } else {
      var front, e := events[..|events| - 1], events[|events| - 1];
      AttacksAddUp(c, front, p);
      StepFeedsAttack(c, Run(c, front).value, e, p);
      HitsMadeGrow(front, e, p);
      assert front + [e] == events;
      if e.Hit? && e.damage.attackerID == p && TeamID(p) != 0 {
        HitFeedsAttack(HitsBy(Run(c, front).value.attack, p), HitsMade(front, p), e.damage);
      }
    }
  }

  lemma NoAttackYet(p: int)
    ensures IsAttack(HitsBy(Start().attack, p), [])
  {
  }

  // ---------- Serious damage ----------

  /** Damage opens a fight only once the victim has lost more than thirty percent of his health since the last pause,
      in hits at two or more different moments. The fight begins with the first of them. */
  lemma {:induction false} SeriousDamageOpens(c: Setting, events: seq<Event>, e: Event) returns (k: nat)
    requires c.me in PLAYERS && Run(c, events).Some? && Run(c, events + [e]).Some?
    requires e.Hit? && Trigger(c, Run(c, events).value, e).Opened?
    ensures var p, fights := e.damage.victimID, Run(c, events + [e]).value.fights;
            var hits := HitsTaken(events + [e], p);
            && k < |hits| && TotalFrom(hits, k) > 30.0 && MomentsFrom(hits, k) >= 2
            && (forall i :: k < i < |hits| ==> hits[i].seconds - SecondsBefore(hits, i) < 3.0)
            && fights != [] && var begin := fights[|fights| - 1].begin;
                            if hits[k].seconds - SecondsBefore(hits, k) >= 3.0 then begin == hits[k].seconds
                            else k == 0 && begin == 0.0
  {
    hide Step, Run, ContinuousDamage.Add, ContinuousAttack.Add, Opens, Hurting, TotalFrom, MomentsFrom;
    var v, p := Run(c, events).value, e.damage.victimID;
    RunExtends(c, events, e);
    StepFeeds(c, v, e, p);
    SessionsAddUp(c, events + [e], p);
    HitsTakenGrow(events, e, p);
    TriggerOpens(c, v, e);
    k :| IsSessionFrom(HitsOn(Run(c, events + [e]).value.damage, p), HitsTaken(events + [e], p), k);
    SessionsAgree(v, e.damage, e);
  }

  lemma SessionsAgree(v: View, t: Damage, e: Event)
    requires e.Hit? && e.damage == t
    ensures HitsOn(Fed(v, t).damage, t.victimID) == HitsOn(v.damage, t.victimID).Add(t.seconds, t.percent)
    ensures SessionStart(v, e) == HitsOn(v.damage, t.victimID).Add(t.seconds, t.percent).startTime
  {
    hide ContinuousDamage.Add, ContinuousAttack.Add;
  }
}
