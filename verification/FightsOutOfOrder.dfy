/** A match whose recorded fights are not in order: the second fight opens around a player who was never hit,
    and so it begins with the match. */
module FightsOutOfOrder {
  import opened Basics
  import opened FightAnalysis
  import opened FightOrder
  import opened FightRuns
  import opened History
  import opened MapOrder
  import opened Sight
  import opened TeamFights
  import opened Teams
  import opened Wrappers

  /** The teams stand apart, too far to chase each other and close enough to fight. */
  function Spot(p: int): Position {
    Position(if p <= 5 then 0.0 else 1500.0, 0.0)
  }

  function Seen(p: int, seconds: real): Event {
    Report(Update(seconds, p, Spot(p), 0, 1.0, 100.0))
  }

  /** The first `n` players are reported, all at once. */
  function Arrivals(n: nat): seq<Event> {
    if n == 0 then [] else Arrivals(n - 1) + [Seen(n, 1.0)]
  }

  function NoWards(): Wards {
    (p: int, seconds: real, place: Position) => false
  }

  /** Player 6 is hit at 11 and at 13 seconds and dies; at 20 seconds that fight is over; then player 7, whom
      nobody has hit, dies. */
  function Match(): seq<Event> {
    Arrivals(10)
    + [Hit(Damage(11.0, 6, 1, 5.0), NoWards()), Hit(Damage(13.0, 6, 1, 5.0), NoWards()), Death(6, 14.0, NoWards()),
       Seen(1, 20.0), Death(7, 21.0, NoWards())]
  }

  // ---------- Standing apart ----------

  /** Everybody is known to be in his place, and the tracked player and an enemy are alive. */
  ghost predicate Spread(s: Snapshot) {
    && s.positions.Keys == PLAYERS
    && (forall p <- PLAYERS :: s.positions[p] == Some(Spot(p)))
    && 1 in s.alive && 8 in s.alive
  }

  lemma SpreadNear(s: Snapshot, p: int, q: int)
    requires Spread(s) && p in PLAYERS && q in PLAYERS
    ensures IsKnown(s, p) && Near(s, p, q, PARTICIPANT_DISTANCE)
    ensures TeamID(p) != TeamID(q) ==> !Near(s, p, q, CHASE_DISTANCE)
  {
    assert s.positions[p] == Some(Spot(p)) && s.positions[q] == Some(Spot(q));
  }

  lemma NobodyChases(s: Snapshot, p: int)
    requires Spread(s) && p in PLAYERS
    ensures ScanEnemies(s, p, CHASE_DISTANCE, 1) == Some(false)
  {
    hide Spread, Near, IsKnown;
    ScanFinds(s, p, CHASE_DISTANCE, 1);
    forall k: int | 1 <= k <= 10
      ensures !IsUnreadable(s, k, p) && !IsThreat(s, k, p, CHASE_DISTANCE)
    {
      assert k in PLAYERS;
      SpreadNear(s, k, p);
      SpreadNear(s, p, k);
    }
  }

  lemma SpreadIsUsable(s: Snapshot)
    requires Spread(s)
    ensures Usable(s) && AliveKnown(s)
  {
    TenPlayers();
  }

  lemma SomeAreAlive(s: Snapshot)
    requires Spread(s)
    ensures 1 in PLAYERS * s.alive && 8 in PLAYERS * s.alive
  {
  }

  lemma EnemyTakesPart(s: Snapshot, p: int)
    requires Spread(s) && p in PLAYERS
    ensures var group := Around(s, p); group - OnTeam(group, BLUE_TEAM) != {}
  {
    hide Spread, Near;
    SomeAreAlive(s);
    SpreadNear(s, 8, p);
    var group := Around(s, p);
    assert 8 in group - OnTeam(group, BLUE_TEAM);
  }

  /** Where nobody was in sight beforehand, any death or serious damage opens a fight. */
  lemma SpreadOpens(c: Setting, states: seq<Snapshot>, p: int, start: real, time: real, wards: Wards)
    requires c.me == 1 && p in PLAYERS && Increasing(states) && states != [] && Spread(states[|states| - 1])
    requires states[|states| - 1].seconds <= time < states[|states| - 1].seconds + FAR && Closest(states, start).Some?
    requires forall q <- PLAYERS :: InVision(states, start, q, c.world, wards) == Some(false)
    ensures Opens(c, states, p, start, time, wards).Opened?
  {
    hide Spread, Near, IsKnown, InVision, Closest, AliveKnown, OnTeam, Around, TeamGold, SumOver, RealSumOver,
      InSight, Usable;
    var s := states[|states| - 1];
    SomeAreAlive(s);
    SpreadIsUsable(s);
    NewestIsClosest(states, time);
    SpreadNear(s, p, 1);
    SpreadNear(s, 1, p);
    EnemyTakesPart(s, p);
    AroundArePlayers(s, p);
  }

  // ---------- The match, step by step ----------

  /** One snapshot, taken when the first players arrived. */
  ghost predicate Arrived(states: seq<Snapshot>, n: nat) {
    && |states| == 1 && states[0].seconds == 1.0 && states[0].alive == PLAYERS
    && states[0].positions.Keys == (set p <- PLAYERS | p <= n)
    && forall p <- states[0].positions :: states[0].positions[p] == Some(Spot(p))
  }

  lemma FirstArrives(u: Update)
    requires Report(u) == Seen(1, 1.0)
    ensures Arrived(WithReport([], u), 1)
  {
    var s := Copy(1.0, None);
    assert Extended([], 1.0) == [s];
    assert WithReport([], u) == [WithUpdate(s, u)];
    assert WithUpdate(s, u).alive == PLAYERS + {1} == PLAYERS;
  }

  lemma NextArrives(states: seq<Snapshot>, n: nat, u: Update)
    requires Arrived(states, n) && 1 <= n < 10 && Report(u) == Seen(n + 1, 1.0)
    ensures Arrived(WithReport(states, u), n + 1)
  {
    assert WithReport(states, u) == [WithUpdate(states[0], u)];
    assert WithUpdate(states[0], u).alive == PLAYERS + {n + 1} == PLAYERS;
  }

  lemma {:induction false} ArrivalsRun(c: Setting, n: nat)
    requires 1 <= n <= 10
    ensures Run(c, Arrivals(n)).Some?
    ensures var v := Run(c, Arrivals(n)).value;
            Arrived(v.states, n) && v == Start().(states := v.states)
  {
    hide Run, WithReport, Arrived;
    var u := Seen(n, 1.0).update;
    if n == 1 {
      RunStarts(c);
      NoReports(c);
      ReportRuns(c, [], u);
      FirstArrives(u);
      assert Arrivals(0) == [] && Arrivals(1) == Arrivals(0) + [Report(u)];
    } else {
      ArrivalsRun(c, n - 1);
      ReportRuns(c, Arrivals(n - 1), u);
      NextArrives(Run(c, Arrivals(n - 1)).value.states, n - 1, u);
    }
  }

  lemma NoReports(c: Setting)
    ensures Run(c, []) == Some(Start())
  {
  }

  lemma ArrivedAreSpread(states: seq<Snapshot>)
    requires Arrived(states, 10)
    ensures Spread(states[0]) && Increasing(states)
  {
    assert (set p <- PLAYERS | p <= 10) == PLAYERS;
  }

  /** After the two hits. */
  ghost predicate WereHit(v: View) {
    && HitsOn(v.damage, 6) == ContinuousDamage(11.0, 13.0, 10.0, 2)
    && (forall p :: p != 6 ==> HitsOn(v.damage, p) == ContinuousDamage(0.0, 0.0, 0.0, 0))
    && (forall p :: HitsBy(v.attack, p).lastTime <= 13.0)
  }

  lemma TwoHits(c: Setting, v: View)
    requires v == Start().(states := v.states)
    ensures var first := AfterDamage(c, v, Damage(11.0, 6, 1, 5.0), NoWards());
            first.Some?
            && var second := AfterDamage(c, first.value, Damage(13.0, 6, 1, 5.0), NoWards());
            second.Some? && second.value.states == v.states && second.value.fights == [] && WereHit(second.value)
  {
    hide Opens, Closest;
    var one, two := Damage(11.0, 6, 1, 5.0), Damage(13.0, 6, 1, 5.0);
    assert HitsOn(v.damage, 6) == ContinuousDamage(0.0, 0.0, 0.0, 0);
    var first := Fed(v, one);
    assert HitsOn(first.damage, 6) == ContinuousDamage(11.0, 11.0, 5.0, 1);
    assert AfterDamage(c, v, one, NoWards()) == Some(first);
    var second := Fed(first, two);
    assert HitsOn(second.damage, 6) == ContinuousDamage(11.0, 13.0, 10.0, 2);
    assert AfterDamage(c, first, two, NoWards()) == Some(second);
  }

  /** Nobody was looked at, as no snapshot is of the right time. */
  lemma NotInWindow(states: seq<Snapshot>, time: real, p: int, world: World, wards: Wards)
    requires forall i :: 0 <= i < |states| ==> !Matters(states[i], time)
    requires Increasing(states)
    ensures InVision(states, time, p, world, wards) == Some(false)
  {
    hide InVision, SeenAt;
    StoppingLosesNothing(states, time, p, world, wards);
  }

  lemma UnseenBefore(states: seq<Snapshot>, time: real, world: World, wards: Wards)
    requires Increasing(states) && forall i :: 0 <= i < |states| ==> !Matters(states[i], time)
    ensures forall q <- PLAYERS :: InVision(states, time, q, world, wards) == Some(false)
  {
    hide InVision, Matters;
    forall q | q in PLAYERS
      ensures InVision(states, time, q, world, wards) == Some(false)
    {
      NotInWindow(states, time, q, world, wards);
    }
  }

  lemma UsableIsFound(states: seq<Snapshot>, time: real)
    requires states != [] && Spread(states[|states| - 1]) && 0.0 <= time <= 100.0
             && 0.0 <= states[|states| - 1].seconds <= 100.0
    ensures Closest(states, time).Some?
  {
    hide Closest;
    SpreadIsUsable(states[|states| - 1]);
    assert IsNewestUsable(states, |states| - 1);
    ClosestExists(states, time);
  }

  /** The death of somebody opens a fight that begins with his session. */
  lemma DeathOpensFight(c: Setting, v: View, p: int, seconds: real)
    requires c.me == 1 && p in PLAYERS && p != 1 && p != 8 && !IsOpen(v.fights, c.matchDuration)
    requires Increasing(v.states) && v.states != [] && Spread(v.states[|v.states| - 1])
    requires v.states[|v.states| - 1].seconds <= seconds <= 100.0 && 0.0 <= v.states[|v.states| - 1].seconds
    requires 0.0 <= HitsOn(v.damage, p).startTime <= 100.0
    requires forall i :: 0 <= i < |v.states| ==> !Matters(v.states[i], HitsOn(v.damage, p).startTime)
    ensures var w := AfterDeath(c, v, p, seconds, NoWards());
            && w.Some? && |w.value.fights| == |v.fights| + 1 && w.value.fights[..|v.fights|] == v.fights
            && w.value.states == WithoutPlayer(v.states, p, seconds)
            && w.value.damage == v.damage && w.value.attack == v.attack
            && var f := w.value.fights[|v.fights|];
            f.begin == HitsOn(v.damage, p).startTime && f.end == c.matchDuration && FightOk(f, 1)
            && f.initialTarget == p
            && (p in v.states[|v.states| - 1].alive ==> p in f.participants)
  {
    hide Spread, Opens, Closest, Matters, HitsOn, WithoutPlayer, FightOk, WithDeath, Usable;
    var start := HitsOn(v.damage, p).startTime;
    UnseenBefore(v.states, start, c.world, NoWards());
    UsableIsFound(v.states, start);
    SpreadOpens(c, v.states, p, start, seconds, NoWards());
    OpenedIsOk(c, v.states, p, start, seconds, NoWards());
    var f := Opens(c, v.states, p, start, seconds, NoWards()).fight;
    FightStaysOk(f, 1, Damage(0.0, 0, 0, 0.0), p);
    DeathAddsOnly(f, 1, p);
    SpreadIsUsable(v.states[|v.states| - 1]);
    NewestIsClosest(v.states, seconds);
    TargetTakesPart(c, v.states, p, start, seconds, NoWards());
  }

  lemma StillSpread(states: seq<Snapshot>, p: int, seconds: real)
    requires |states| == 1 && Spread(states[0]) && p != 1 && p != 8 && states[0].seconds == 1.0
    ensures var r := WithoutPlayer(states, p, seconds);
            |r| == 1 && Spread(r[0]) && r[0].seconds == 1.0
  {
  }

  /** The report at 20 seconds gets a snapshot of its own. */
  lemma AnotherSnapshot(states: seq<Snapshot>)
    requires |states| == 1 && Spread(states[0]) && states[0].seconds == 1.0
    ensures var r := WithReport(states, Seen(1, 20.0).update);
            |r| == 2 && r[0] == states[0] && r[1].seconds == 20.0 && Spread(r[1])
  {
    hide Spread, Copy, WithUpdate;
    var u := Seen(1, 20.0).update;
    var next := Copy(20.0, Some(states[0]));
    NextIsNow(states, 20.0);
    assert Extended(states, 20.0) == states + [next];
    assert WithReport(states, u) == [states[0], WithUpdate(next, u)];
    UpdateKnows(next, u);
    CopyIsSpread(states[0]);
    SpreadStays(next, u);
  }

  lemma CopyIsSpread(s: Snapshot)
    requires Spread(s)
    ensures Spread(Copy(20.0, Some(s)))
  {
  }

  lemma SpreadStays(s: Snapshot, u: Update)
    requires Spread(s) && u.participantID in PLAYERS && u.position == Spot(u.participantID)
    ensures Spread(WithUpdate(s, u))
  {
    assert s.positions.Keys + {u.participantID} == PLAYERS;
  }

  /** The first fight is over, and ended when player 6 was last hit. */
  lemma FightIsOver(c: Setting, v: View)
    requires c.matchDuration >= 30.0 && WereHit(v) && |v.fights| == 1 && IsOpen(v.fights, c.matchDuration)
    requires FightOk(v.fights[0], 1) && 6 in v.fights[0].participants
    requires |v.states| == 1 && Spread(v.states[0]) && v.states[0].seconds == 1.0
    ensures var w := AfterReport(c, v, Seen(1, 20.0).update);
            && w.Some? && w.value.states == WithReport(v.states, Seen(1, 20.0).update)
            && w.value.damage == v.damage
            && |w.value.fights| == 1 && w.value.fights[0].begin == v.fights[0].begin && w.value.fights[0].end == 13.0
            && w.value.fights[0].participants == v.fights[0].participants
  {
    hide Spread, WithReport, Closest, WereHit, Usable, ScanEnemies, TeamGold, LastHit;
    AnotherSnapshot(v.states);
    var r := WithReport(v.states, Seen(1, 20.0).update);
    SpreadIsUsable(r[1]);
    NewestIsClosest(r, 20.0);
    var f := v.fights[0];
    NobodyGoesOn(f.participants, r[1], v);
    LastHitAtThirteen(f.participants, v);
  }

  lemma NobodyGoesOn(group: set<int>, s: Snapshot, v: View)
    requires group <= PLAYERS && Spread(s) && WereHit(v)
    ensures !GoesOn(group, s, v, 20.0) && !MayReadNil(group, s, v, 20.0)
  {
    hide Spread, ScanEnemies, HitsOn, HitsBy;
    forall p | p in group
      ensures !KeepsGoing(p, s, v, 20.0) && !ReadsNil(p, s, v, 20.0)
    {
      NobodyChases(s, p);
      assert HitsOn(v.damage, p).lastTime <= 13.0;
    }
  }

  lemma LastHitAtThirteen(group: set<int>, v: View)
    requires 6 in group && WereHit(v)
    ensures LastHit(group, v.damage) == 13.0
  {
    hide HitsOn, LastHit;
    assert HitsOn(v.damage, 6).lastTime == 13.0;
    forall p | p in group
      ensures HitsOn(v.damage, p).lastTime <= 13.0
    {
    }
    assert IsLastHit(group, v.damage, 13.0);
    LastHitIsUnique(group, v.damage, LastHit(group, v.damage), 13.0);
  }

  /** The second fight of this match begins before the first one. */
  lemma SecondBeginsFirst(c: Setting)
    requires c.me == 1 && c.matchDuration >= 30.0
    ensures Run(c, Match()).Some?
    ensures var fights := Run(c, Match()).value.fights;
            && |fights| == 2 && fights[0].begin == 11.0 && fights[0].end == 13.0
            && fights[1].begin == 0.0 && fights[1].end == c.matchDuration
            && 1 in fights[0].participants && 1 in fights[1].participants && !InOrder(fights)
  {
    hide Run, Arrivals, Spread, Arrived, WereHit, AfterDamage, AfterDeath, AfterReport, WithReport, WithoutPlayer,
      HitsOn;
    var e1, e2 := Hit(Damage(11.0, 6, 1, 5.0), NoWards()), Hit(Damage(13.0, 6, 1, 5.0), NoWards());
    var e3, e4, e5 := Death(6, 14.0, NoWards()), Seen(1, 20.0), Death(7, 21.0, NoWards());
    var a := Arrivals(10);
    ArrivalsRun(c, 10);
    var v0 := Run(c, a).value;
    TwoHits(c, v0);
    RunExtends(c, a, e1);
    RunExtends(c, a + [e1], e2);
    var v2 := Run(c, a + [e1] + [e2]).value;
    FirstFight(c, v2);
    RunExtends(c, a + [e1] + [e2], e3);
    var v3 := Run(c, a + [e1] + [e2] + [e3]).value;
    FightIsOver(c, v3);
    RunExtends(c, a + [e1] + [e2] + [e3], e4);
    var v4 := Run(c, a + [e1] + [e2] + [e3] + [e4]).value;
    SecondFight(c, v3, v4);
    RunExtends(c, a + [e1] + [e2] + [e3] + [e4], e5);
    assert Match() == a + [e1] + [e2] + [e3] + [e4] + [e5];
  }

  lemma FirstFight(c: Setting, v: View)
    requires c.me == 1 && WereHit(v) && v.fights == [] && Arrived(v.states, 10)
    ensures var w := AfterDeath(c, v, 6, 14.0, NoWards());
            && w.Some? && |w.value.fights| == 1 && WereHit(w.value)
            && |w.value.states| == 1 && Spread(w.value.states[0]) && w.value.states[0].seconds == 1.0
            && w.value.fights[0].begin == 11.0 && w.value.fights[0].end == c.matchDuration
            && FightOk(w.value.fights[0], 1) && 6 in w.value.fights[0].participants
  {
    hide Spread, AfterDeath, WithoutPlayer, HitsOn, FightOk;
    ArrivedAreSpread(v.states);
    assert HitsOn(v.damage, 6).startTime == 11.0;
    DeathOpensFight(c, v, 6, 14.0);
    StillSpread(v.states, 6, 14.0);
  }

  lemma SecondFight(c: Setting, v: View, w: View)
    requires c.me == 1 && c.matchDuration >= 30.0 && WereHit(v) && w.damage == v.damage
    requires |v.states| == 1 && Spread(v.states[0]) && v.states[0].seconds == 1.0
    requires w.states == WithReport(v.states, Seen(1, 20.0).update)
    requires |w.fights| == 1 && w.fights[0].begin == 11.0 && w.fights[0].end == 13.0
    ensures var x := AfterDeath(c, w, 7, 21.0, NoWards());
            && x.Some? && |x.value.fights| == 2 && x.value.fights[0] == w.fights[0]
            && x.value.fights[1].begin == 0.0 && x.value.fights[1].end == c.matchDuration
            && FightOk(x.value.fights[1], 1)
  {
    hide Spread, WithReport, WithoutPlayer, AfterDeath, HitsOn, FightOk;
    AnotherSnapshot(v.states);
    assert HitsOn(w.damage, 7).startTime == 0.0;
    DeathOpensFight(c, w, 7, 21.0);
    assert AfterDeath(c, w, 7, 21.0, NoWards()).value.fights[..1][0] == w.fights[0];
  }
}
