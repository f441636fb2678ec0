/** Team fights (lolstats-master/ingest/team_fights.go): damage and deaths, read against the recent
    history, open a fight; it closes when nobody in it is hit or chased any more. A step that reads
    through nil, where the program fails, has no next state. */
module TeamFights {
  import opened Basics
  import opened History
  import opened MapOrder
  import opened Sight
  import opened Teams
  import opened Wrappers

  const CONTINUOUS_DAMAGE_TIME := 3.0
  const NO_DAMAGE_TIME_FOR_TEAM_FIGHT_END := 3.0
  const PARTICIPANT_DISTANCE := 2000.0
  const CHASE_DISTANCE := 1000.0

  /** A session of damage taken without a gap of three seconds. */
  datatype ContinuousDamage = ContinuousDamage(startTime: real, lastTime: real, totalPercent: real, numEvents: int) {
    function Add(sec: real, percent: real): ContinuousDamage {
      if sec - lastTime < CONTINUOUS_DAMAGE_TIME then
        ContinuousDamage(startTime, sec, totalPercent + percent, if sec > lastTime then numEvents + 1 else numEvents)
      else
        ContinuousDamage(sec, sec, percent, 1)
    }
  }

  /** A session of damage dealt to champions. */
  datatype ContinuousAttack = ContinuousAttack(startTime: real, lastTime: real) {
    function Add(sec: real): ContinuousAttack {
      ContinuousAttack(if sec - lastTime >= CONTINUOUS_DAMAGE_TIME then sec else startTime, sec)
    }
  }

  datatype TeamFight = TeamFight(
    begin: real,
    end: real,
    participants: set<int>,
    influencers: set<int>,
    initialTarget: int,
    teamKills: set<int>,
    teamDeaths: set<int>,
    sumTeamHealthPercent: int,
    sumEnemyHealthPercent: int,
    participantLevel: int,
    enemyLevelAverage: real,
    teamGoldSpent: int,
    enemyGoldSpent: int,
    neutralDamageTaken: real,
    enemyNeutralDamageTaken: real,
    teamSummonerSpells: int,
    enemySummonerSpells: int,
    enemiesInVision: map<int, bool>,
    alliesInVision: map<int, bool>,
    teamGoldAtStart: int,
    enemyGoldAtStart: int,
    netGoldDiff: int,
    damageDealt: map<int, real>,
    enemyDamageTaken: map<int, real>)

  datatype Damage = Damage(seconds: real, victimID: int, attackerID: int, percent: real)

  /** Whom the analysis is about, how long the match lasted, and where it was played. */
  datatype Setting = Setting(me: int, matchDuration: real, world: World)

  /** All that the analysis knows at some moment. */
  datatype View = View(
    states: seq<Snapshot>,
    damage: map<int, ContinuousDamage>,
    attack: map<int, ContinuousAttack>,
    fights: seq<TeamFight>)

  // ---------- What every recorded fight is like ----------

  function OnTeam(group: set<int>, team: int): set<int> {
    set p <- group | TeamID(p) == team
  }

  /** The tracked player and at least one enemy take part, influencers are other champions, and
      kills and deaths are of people involved, on the right team. */
  ghost predicate FightOk(f: TeamFight, me: int) {
    && f.participants <= PLAYERS
    && f.influencers <= PLAYERS
    && me in f.participants
    && OnTeam(f.participants, EnemyTeamID(me)) != {}
    && f.participants !! f.influencers
    && f.teamKills <= OnTeam(f.participants + f.influencers, EnemyTeamID(me))
    && f.teamDeaths <= OnTeam(f.participants + f.influencers, TeamID(me))
  }

  /** Only the last fight can still be open: an open fight ends when the match does. */
  ghost predicate OnlyLastOpen(fights: seq<TeamFight>, matchDuration: real) {
    forall i :: 0 <= i < |fights| - 1 ==> fights[i].end != matchDuration
  }

  ghost predicate FightsOk(fights: seq<TeamFight>, c: Setting) {
    (forall f <- fights :: FightOk(f, c.me)) && OnlyLastOpen(fights, c.matchDuration)
  }

  /** In any recorded fight both teams have members, so no average over a team divides by zero. */
  lemma AveragesAreDefined(f: TeamFight, me: int)
    requires me in PLAYERS && FightOk(f, me)
    ensures |OnTeam(f.participants, TeamID(me))| > 0 && |OnTeam(f.participants, EnemyTeamID(me))| > 0
    ensures OnTeam(f.participants, TeamID(me)) + OnTeam(f.participants, EnemyTeamID(me)) == f.participants
    ensures OnTeam(f.participants, TeamID(me)) !! OnTeam(f.participants, EnemyTeamID(me))
  {
    assert me in OnTeam(f.participants, TeamID(me));
    assert forall p <- PLAYERS :: TeamID(p) == TeamID(me) || TeamID(p) == EnemyTeamID(me);
  }

  /** Nobody kills on both sides, and no victim is counted for both. */
  lemma KillsAndDeathsAreApart(f: TeamFight, me: int)
    requires me in PLAYERS && FightOk(f, me)
    ensures f.teamKills !! f.teamDeaths && me !in f.teamKills
  {
  }

  // ---------- Reading a snapshot ----------

  /** The living players close to the one who triggered the fight. */
  function Around(s: Snapshot, trigger: int): set<int> {
    set p <- PLAYERS | p in s.alive && Near(s, p, trigger, PARTICIPANT_DISTANCE)
  }

  function GoldOf(s: Snapshot, p: int): int {
    Amount(s.goldAmount, p) + Amount(s.goldSpent, p)
  }

  /** All gold of the players numbered up to `n` who are, or are not, on the team. */
  function TeamGold(s: Snapshot, team: int, friendly: bool, n: nat): int {
    if n == 0 then 0
    else TeamGold(s, team, friendly, n - 1) + (if (TeamID(n) == team) == friendly then GoldOf(s, n) else 0)
  }

  method FriendlyAndEnemyTeamGold(s: Snapshot, team: int) returns (friendly: int, enemy: int)
    ensures friendly == TeamGold(s, team, true, 10) && enemy == TeamGold(s, team, false, 10)
  {
    friendly, enemy := 0, 0;
    for i := 1 to 11
      invariant friendly == TeamGold(s, team, true, i - 1) && enemy == TeamGold(s, team, false, i - 1)
    {
      if TeamID(i) != team {
        enemy := enemy + Amount(s.goldAmount, i) + Amount(s.goldSpent, i);
      } else {
        friendly := friendly + Amount(s.goldAmount, i) + Amount(s.goldSpent, i);
      }
    }
  }

  function Round(x: real): int {
    (x + 0.5).Floor
  }

  ghost function HealthOf(s: Snapshot): int -> int {
    p => Round(Value(s.health, p))
  }

  ghost function SpentOf(s: Snapshot): int -> int {
    p => Amount(s.goldSpent, p)
  }

  ghost function LevelOf(s: Snapshot): int -> int {
    p => Amount(s.levels, p)
  }

  /** Health, gold spent and levels of a group, summed in any order. */
  method SumUp(group: set<int>, s: Snapshot) returns (health: int, spent: int, levels: int)
    ensures health == SumOver(group, HealthOf(s))
    ensures spent == SumOver(group, SpentOf(s))
    ensures levels == SumOver(group, LevelOf(s))
  {
    health, spent, levels := 0, 0, 0;
    var left := group;
    while left != {}
      invariant health + SumOver(left, HealthOf(s)) == SumOver(group, HealthOf(s))
      invariant spent + SumOver(left, SpentOf(s)) == SumOver(group, SpentOf(s))
      invariant levels + SumOver(left, LevelOf(s)) == SumOver(group, LevelOf(s))
      decreases |left|
    {
      var p := Next(left);
      SumOverTakes(left, HealthOf(s), p);
      SumOverTakes(left, SpentOf(s), p);
      SumOverTakes(left, LevelOf(s), p);
      left := left - {p};
      health := health + Round(Value(s.health, p));
      spent := spent + Amount(s.goldSpent, p);
      levels := levels + Amount(s.levels, p);
    }
  }

  /** Damage that a player took from turrets and monsters between two moments, as noted in the history. */
  function NeutralDamage(states: seq<Snapshot>, from: real, to: real, p: int): real {
    if states == [] then 0.0
    else
      var last := states[|states| - 1];
      NeutralDamage(states[..|states| - 1], from, to, p)
      + if from <= last.seconds <= to then Value(last.neutralDamage, p) else 0.0
  }

  ghost function NeutralOf(states: seq<Snapshot>, from: real, to: real): int -> real {
    p => NeutralDamage(states, from, to, p)
  }

  /** The neutral damage of a whole group, summed in any order. */
  method SumUpNeutral(group: set<int>, states: seq<Snapshot>, from: real, to: real) returns (total: real)
    ensures total == RealSumOver(group, NeutralOf(states, from, to))
  {
    total := 0.0;
    var left := group;
    while left != {}
      invariant total + RealSumOver(left, NeutralOf(states, from, to)) ==
                RealSumOver(group, NeutralOf(states, from, to))
      decreases |left|
    {
      var p := Next(left);
      RealSumOverTakes(left, NeutralOf(states, from, to), p);
      left := left - {p};
      ghost var before := total;
      for i := 0 to |states|
        invariant total == before + NeutralDamage(states[..i], from, to, p)
      {
        assert states[..i + 1][..i] == states[..i];
        if states[i].seconds >= from && states[i].seconds <= to {
          total := total + Value(states[i].neutralDamage, p);
        }
      }
      assert states[..|states|] == states;
    }
  }

  // ---------- Summoner spells and vision ----------

  function Spells(s: Snapshot, p: int): map<string, real> {
    if p in s.spells then s.spells[p] else map[]
  }

  /** How many of a player's summoner spells are ready at a moment. */
  ghost function SpellsReady(s: Snapshot, time: real): int -> int {
    p => |set slot <- Spells(s, p) | Spells(s, p)[slot] <= time|
  }

  method CountSpells(s: Snapshot, p: int, time: real) returns (n: int)
    ensures n == SpellsReady(s, time)(p)
  {
    n := 0;
    var spells := Spells(s, p);
    var left := spells.Keys;
    ghost var ready := {};
    while left != {}
      invariant left <= spells.Keys
      invariant ready == (set slot <- spells | slot !in left && spells[slot] <= time) && n == |ready|
      decreases |left|
    {
      var slot := Next(left);
      left := left - {slot};
      if spells[slot] <= time {
        ready := ready + {slot};
        n := n + 1;
      }
    }
    assert ready == set slot <- spells | spells[slot] <= time;
  }

  /** The summoner spells of a whole group, counted in any order. */
  method SumUpSpells(group: set<int>, s: Snapshot, time: real) returns (total: int)
    ensures total == SumOver(group, SpellsReady(s, time))
  {
    total := 0;
    var left := group;
    while left != {}
      invariant total + SumOver(left, SpellsReady(s, time)) == SumOver(group, SpellsReady(s, time))
      decreases |left|
    {
      var p := Next(left);
      SumOverTakes(left, SpellsReady(s, time), p);
      left := left - {p};
      var n := CountSpells(s, p, time);
      total := total + n;
    }
  }

  /** Who of a group was in sight before the fight. */
  ghost function InSight(group: set<int>, states: seq<Snapshot>, time: real, world: World,
                         wards: Wards): map<int, bool> {
    map p <- group :: InVision(states, time, p, world, wards) == Some(true)
  }

  /** Whether looking at a group meets a nil position. */
  ghost predicate CannotTell(group: set<int>, states: seq<Snapshot>, time: real, world: World, wards: Wards) {
    exists p <- group :: InVision(states, time, p, world, wards) == None
  }

  method LookAt(group: set<int>, states: seq<Snapshot>, time: real, world: World, wards: Wards)
    returns (r: Option<map<int, bool>>)
    ensures r == if CannotTell(group, states, time, world, wards) then None
                 else Some(InSight(group, states, time, world, wards))
  {
    hide InVision;
    var seen: map<int, bool> := map[];
    var left := group;
    while left != {}
      invariant left <= group && seen.Keys == group - left
      invariant forall p <- seen :: seen[p] == (InVision(states, time, p, world, wards) == Some(true))
      invariant forall p <- group :: p !in left ==> InVision(states, time, p, world, wards) != None
      decreases |left|
    {
      var p := Next(left);
      left := left - {p};
      var b := IsInVision(states, time, p, world, wards);
      if b == None {
        return None;
      }
      seen := seen[p := b.value];
    }
    assert seen == InSight(group, states, time, world, wards);
    r := Some(seen);
  }

  // ---------- The end of a fight ----------

  function HitsOn(damage: map<int, ContinuousDamage>, p: int): ContinuousDamage {
    if p in damage then damage[p] else ContinuousDamage(0.0, 0.0, 0.0, 0)
  }

  function HitsBy(attack: map<int, ContinuousAttack>, p: int): ContinuousAttack {
    if p in attack then attack[p] else ContinuousAttack(0.0, 0.0)
  }

  /** A player who was just hit or just hit someone. */
  predicate JustActed(p: int, v: View, time: real) {
    || HitsOn(v.damage, p).lastTime > time - NO_DAMAGE_TIME_FOR_TEAM_FIGHT_END
    || HitsBy(v.attack, p).lastTime > time - NO_DAMAGE_TIME_FOR_TEAM_FIGHT_END
  }

  /** A participant who just acted, or who is chased, keeps a fight going. */
  predicate KeepsGoing(p: int, s: Snapshot, v: View, time: real) {
    JustActed(p, v, time) || ScanEnemies(s, p, CHASE_DISTANCE, 1) == Some(true)
  }

  /** Looking whether a participant is chased meets a nil position. */
  predicate ReadsNil(p: int, s: Snapshot, v: View, time: real) {
    !JustActed(p, v, time) && ScanEnemies(s, p, CHASE_DISTANCE, 1) == None
  }

  predicate GoesOn(participants: set<int>, s: Snapshot, v: View, time: real) {
    exists p <- participants :: KeepsGoing(p, s, v, time)
  }

  predicate MayReadNil(participants: set<int>, s: Snapshot, v: View, time: real) {
    exists p <- participants :: ReadsNil(p, s, v, time)
  }

  /** When somebody of a group was last hit, and zero when nobody ever was. */
  ghost predicate IsLastHit(group: set<int>, damage: map<int, ContinuousDamage>, time: real) {
    && time >= 0.0
    && (forall p <- group :: HitsOn(damage, p).lastTime <= time)
    && (time == 0.0 || exists p <- group :: HitsOn(damage, p).lastTime == time)
  }

  ghost function LastHit(group: set<int>, damage: map<int, ContinuousDamage>): (time: real)
    ensures IsLastHit(group, damage, time)
  {
    if group == {} then 0.0
    else
      var p := Any(group);
      var rest := LastHit(group - {p}, damage);
      assert group == group - {p} + {p};
      Max(HitsOn(damage, p).lastTime, rest)
  }

  lemma LastHitIsUnique(group: set<int>, damage: map<int, ContinuousDamage>, a: real, b: real)
    requires IsLastHit(group, damage, a) && IsLastHit(group, damage, b)
    ensures a == b
  {
  }

  /** Zero while somebody keeps the fight going, and otherwise when a participant was last hit. Only when
      one participant keeps it going and another one cannot be read does the outcome depend on the order
      in which they are looked at. */
  method FightEnd(participants: set<int>, s: Snapshot, v: View, time: real) returns (end: Option<real>)
    requires participants <= v.damage.Keys && participants <= v.attack.Keys
    ensures end.None? ==> MayReadNil(participants, s, v, time)
    ensures end.Some? && GoesOn(participants, s, v, time) ==> end.value == 0.0
    ensures end.Some? && !GoesOn(participants, s, v, time) ==>
              end.value == LastHit(participants, v.damage) && !MayReadNil(participants, s, v, time)
  {
    hide LastHit, ScanEnemies;
    var last := 0.0;
    var left := participants;
    while left != {}
      invariant left <= participants
      invariant forall p <- participants :: p !in left ==> !KeepsGoing(p, s, v, time) && !ReadsNil(p, s, v, time)
      invariant IsLastHit(participants - left, v.damage, last)
      decreases |left|
    {
      var p := Next(left);
      left := left - {p};
      if v.damage[p].lastTime > time - NO_DAMAGE_TIME_FOR_TEAM_FIGHT_END
         || v.attack[p].lastTime > time - NO_DAMAGE_TIME_FOR_TEAM_FIGHT_END {
        return Some(0.0);
      }
      var chased := IsEnemyNear(s, p, CHASE_DISTANCE);
      if chased == None {
        return None;
      }
      if chased == Some(true) {
        return Some(0.0);
      }
      if v.damage[p].lastTime > last {
        last := v.damage[p].lastTime;
      }
    }
    assert participants - left == participants;
    LastHitIsUnique(participants, v.damage, last, LastHit(participants, v.damage));
    end := Some(last);
  }

  // ---------- How a fight opens ----------

  /** A trigger opens a fight, opens none, or makes the program read through nil. */
  datatype Opening = NotOpened | NilRead | Opened(fight: TeamFight)

  lemma NearIsSymmetric(s: Snapshot, a: int, b: int, distance: real)
    requires Near(s, a, b, distance)
    ensures Near(s, b, a, distance)
  {
    var p, q := s.positions[a].value, s.positions[b].value;
    SameSquare(p.x - q.x);
    SameSquare(p.y - q.y);
  }

  lemma SameSquare(x: real)
    ensures x * x == (-x) * (-x)
  {
  }

  /** The tracked player is one of those around the trigger, and whoever is not a friend is an enemy. */
  lemma AroundIsMixed(trigger: Snapshot, me: int, pID: int)
    requires me in PLAYERS && me in trigger.alive && Near(trigger, pID, me, PARTICIPANT_DISTANCE)
    ensures me in Around(trigger, pID) && Around(trigger, pID) <= PLAYERS
    ensures OnTeam(Around(trigger, pID), EnemyTeamID(me)) ==
            Around(trigger, pID) - OnTeam(Around(trigger, pID), TeamID(me))
  {
    NearIsSymmetric(trigger, pID, me, PARTICIPANT_DISTANCE);
    forall p | p in PLAYERS ensures (TeamID(p) == EnemyTeamID(me)) == (TeamID(p) != TeamID(me)) {
    }
  }

  /** What is written down of a fight: its members come from the trigger, the figures from the snapshot
      nearest to the moment when the damage began. */
  ghost function Recorded(
    c: Setting, states: seq<Snapshot>, ds: Snapshot, participants: set<int>, pID: int, start: real,
    triggerTime: real, wards: Wards)
    : TeamFight
    requires participants - OnTeam(participants, TeamID(c.me)) != {}
  {
    var friends := OnTeam(participants, TeamID(c.me));
    var enemies := participants - friends;
    TeamFight(
      start, c.matchDuration, participants, {}, pID, {}, {},
      SumOver(friends, HealthOf(ds)), SumOver(enemies, HealthOf(ds)),
      Amount(ds.levels, c.me), SumOver(enemies, LevelOf(ds)) as real / |enemies| as real,
      SumOver(friends, SpentOf(ds)), SumOver(enemies, SpentOf(ds)),
      RealSumOver(friends, NeutralOf(states, start, triggerTime)),
      RealSumOver(enemies, NeutralOf(states, start, triggerTime)),
      SumOver(friends, SpellsReady(ds, triggerTime)), SumOver(enemies, SpellsReady(ds, triggerTime)),
      InSight(enemies, states, start, c.world, wards), InSight(friends, states, start, c.world, wards),
      TeamGold(ds, TeamID(c.me), true, 10), TeamGold(ds, TeamID(c.me), false, 10), 0, map[], map[])
  }

  /** Around a trigger that is close to the tracked player, with at least one enemy taking part. */
  ghost function OpensAround(
    c: Setting, states: seq<Snapshot>, ds: Snapshot, ts: Snapshot, pID: int, start: real, triggerTime: real,
    wards: Wards)
    : Opening
  {
    var participants := Around(ts, pID);
    if !AliveKnown(ts) then NilRead
    else if participants - OnTeam(participants, TeamID(c.me)) == {} then NotOpened
    else if CannotTell(participants, states, start, c.world, wards) then NilRead
    else Opened(Recorded(c, states, ds, participants, pID, start, triggerTime, wards))
  }

  /** What a trigger does: a fight needs a usable snapshot in which the tracked player is alive and close. */
  ghost function Opens(c: Setting, states: seq<Snapshot>, pID: int, start: real, triggerTime: real,
                       wards: Wards): Opening {
    match Closest(states, triggerTime)
    case None => NotOpened
    case Some(t) =>
      var ts := states[t];
      if c.me !in ts.alive then NotOpened
      else if !IsKnown(ts, pID) || !IsKnown(ts, c.me) then NilRead
      else if !Near(ts, pID, c.me, PARTICIPANT_DISTANCE) then NotOpened
      else
        match Closest(states, start)
        case None => NilRead
        case Some(d) => OpensAround(c, states, states[d], ts, pID, start, triggerTime, wards)
  }

  /** What makes a new record as fights are. */
  lemma NewFightIsOk(f: TeamFight, ts: Snapshot, me: int, pID: int)
    requires me in PLAYERS && me in ts.alive && Near(ts, pID, me, PARTICIPANT_DISTANCE)
    requires f.participants == Around(ts, pID) && f.participants - OnTeam(f.participants, TeamID(me)) != {}
    requires f.influencers == {} && f.teamKills == {} && f.teamDeaths == {}
    ensures FightOk(f, me)
  {
    hide Near, Around, TeamID, EnemyTeamID;
    AroundIsMixed(ts, me, pID);
  }

  lemma OpenedAroundIsOk(
    c: Setting, states: seq<Snapshot>, ds: Snapshot, ts: Snapshot, pID: int, start: real, triggerTime: real,
    wards: Wards)
    requires c.me in PLAYERS && c.me in ts.alive && Near(ts, pID, c.me, PARTICIPANT_DISTANCE)
    requires OpensAround(c, states, ds, ts, pID, start, triggerTime, wards).Opened?
    ensures var f := OpensAround(c, states, ds, ts, pID, start, triggerTime, wards).fight;
            FightOk(f, c.me) && f.begin == start && f.end == c.matchDuration && f.initialTarget == pID
  {
    hide Near, TeamGold, Around, AliveKnown, CannotTell, InSight, SumOver, RealSumOver, FightOk, OnTeam, TeamID,
      EnemyTeamID;
    NewFightIsOk(OpensAround(c, states, ds, ts, pID, start, triggerTime, wards).fight, ts, c.me, pID);
  }

  /** A fight that opens begins when its trigger's damage session did, is open, and is as fights are. */
  lemma OpenedIsOk(c: Setting, states: seq<Snapshot>, pID: int, start: real, triggerTime: real, wards: Wards)
    requires c.me in PLAYERS && Opens(c, states, pID, start, triggerTime, wards).Opened?
    ensures var f := Opens(c, states, pID, start, triggerTime, wards).fight;
            FightOk(f, c.me) && f.begin == start && f.end == c.matchDuration && f.initialTarget == pID
  {
    hide Near, IsKnown, OpensAround, IsNearest, FightOk;
    var t, d := Closest(states, triggerTime).value, Closest(states, start).value;
    OpenedAroundIsOk(c, states, states[d], states[t], pID, start, triggerTime, wards);
  }

  /** A new fight is open. */
  lemma OpenedEnds(c: Setting, states: seq<Snapshot>, pID: int, start: real, triggerTime: real, wards: Wards)
    requires Opens(c, states, pID, start, triggerTime, wards).Opened?
    ensures Opens(c, states, pID, start, triggerTime, wards).fight.end == c.matchDuration
  {
    hide Near, IsKnown, IsNearest, Around, OnTeam, CannotTell, AliveKnown;
  }

  method InitialParticipants(s: Snapshot, trigger: int) returns (r: Option<set<int>>)
    requires IsKnown(s, trigger)
    ensures r == if AliveKnown(s) then Some(Around(s, trigger)) else None
  {
    hide IsKnown, Near;
    var participants := {};
    for i := 1 to 11
      invariant participants == set p <- PLAYERS | p < i && p in s.alive && Near(s, p, trigger, PARTICIPANT_DISTANCE)
      invariant forall p <- s.alive * PLAYERS :: p < i ==> IsKnown(s, p)
    {
      if i !in s.alive {
        continue;
      }
      if !IsKnown(s, i) {
        assert i in s.alive * PLAYERS;
        return None;
      }
      if Near(s, i, trigger, PARTICIPANT_DISTANCE) {
        participants := participants + {i};
      }
    }
    assert participants == Around(s, trigger);
    r := Some(participants);
  }

  method FriendsAndEnemies(participants: set<int>, team: int) returns (friends: set<int>, enemies: set<int>)
    ensures friends == OnTeam(participants, team) && enemies == participants - friends
  {
    friends, enemies := {}, {};
    var left := participants;
    while left != {}
      invariant left <= participants
      invariant friends == OnTeam(participants - left, team) && enemies == participants - left - friends
      decreases |left|
    {
      var k := Next(left);
      left := left - {k};
      if TeamID(k) != team {
        enemies := enemies + {k};
      } else {
        friends := friends + {k};
      }
    }
    assert participants - left == participants;
  }

  lemma BothSidesTell(participants: set<int>, team: int, states: seq<Snapshot>, time: real, world: World, wards: Wards)
    ensures CannotTell(participants, states, time, world, wards) <==>
            || CannotTell(OnTeam(participants, team), states, time, world, wards)
            || CannotTell(participants - OnTeam(participants, team), states, time, world, wards)
  {
    hide InVision;
    if CannotTell(participants, states, time, world, wards) {
      var p :| p in participants && InVision(states, time, p, world, wards) == None;
      assert p in OnTeam(participants, team) || p in participants - OnTeam(participants, team);
    }
  }

  /** A fight around the trigger, unless no enemy is around. */
  method NewFight(
    c: Setting, states: seq<Snapshot>, ds: Snapshot, ts: Snapshot, pID: int, start: real, triggerTime: real,
    wards: Wards)
    returns (r: Opening)
    requires IsKnown(ts, pID)
    ensures r == OpensAround(c, states, ds, ts, pID, start, triggerTime, wards)
  {
    hide TeamGold, Around, OnTeam, NeutralDamage, IsKnown, InSight, CannotTell, AliveKnown, SumOver, RealSumOver;
    var teamGold, enemyGold := FriendlyAndEnemyTeamGold(ds, TeamID(c.me));
    var participants := InitialParticipants(ts, pID);
    if participants == None {
      return NilRead;
    }
    var friends, enemies := FriendsAndEnemies(participants.value, TeamID(c.me));
    if |enemies| == 0 {
      return NotOpened;
    }
    BothSidesTell(participants.value, TeamID(c.me), states, start, c.world, wards);
    var health, spent, levels := SumUp(friends, ds);
    var neutral := SumUpNeutral(friends, states, start, triggerTime);
    var spells := SumUpSpells(friends, ds, triggerTime);
    var allies := LookAt(friends, states, start, c.world, wards);
    if allies == None {
      return NilRead;
    }
    var enemyHealth, enemySpent, enemyLevels := SumUp(enemies, ds);
    var enemyNeutral := SumUpNeutral(enemies, states, start, triggerTime);
    var enemySpells := SumUpSpells(enemies, ds, triggerTime);
    var others := LookAt(enemies, states, start, c.world, wards);
    if others == None {
      return NilRead;
    }
    r := Opened(TeamFight(
                  start, c.matchDuration, participants.value, {}, pID, {}, {}, health, enemyHealth,
                  Amount(ds.levels, c.me), enemyLevels as real / |enemies| as real, spent, enemySpent,
                  neutral, enemyNeutral, spells, enemySpells, others.value, allies.value, teamGold, enemyGold, 0,
                  map[], map[]));
  }

  /** The next fight, if the trigger opens one. */
  method StartTeamFight(
    c: Setting, states: seq<Snapshot>, damage: map<int, ContinuousDamage>, pID: int, triggerTime: real, wards: Wards)
    returns (r: Opening)
    requires Spaced(states) && pID in damage
    ensures r == Opens(c, states, pID, damage[pID].startTime, triggerTime, wards)
  {
    hide IsNearest, OpensAround, IsKnown, Spaced;
    SpacedIsIncreasing(states);
    var decisionTime := damage[pID].startTime;
    var decision := FindClosest(states, decisionTime);
    var trigger := FindClosest(states, triggerTime);
    if trigger == None || c.me !in states[trigger.value].alive {
      return NotOpened;
    }
    var ts := states[trigger.value];
    if !IsKnown(ts, pID) || !IsKnown(ts, c.me) {
      return NilRead;
    }
    if !Near(ts, pID, c.me, PARTICIPANT_DISTANCE) {
      return NotOpened;
    }
    if decision == None {
      return NilRead;
    }
    r := NewFight(c, states, states[decision.value], ts, pID, decisionTime, triggerTime, wards);
  }
  // ---------- What an event changes ----------

  predicate IsOpen(fights: seq<TeamFight>, matchDuration: real) {
    fights != [] && fights[|fights| - 1].end == matchDuration
  }

  /** A closed fight stays as it is and an open one only gains members: no event touches fights
      that are over. */
  ghost predicate OnlyOpenChanges(before: seq<TeamFight>, after: seq<TeamFight>, matchDuration: real) {
    && |before| <= |after| <= |before| + 1
    && (|after| > |before| ==> !IsOpen(before, matchDuration))
    && forall i :: 0 <= i < |before| ==>
                     && after[i].begin == before[i].begin
                     && (before[i] == after[i] || (i == |before| - 1 && IsOpen(before, matchDuration)))
                     && after[i].participants == before[i].participants
                     && before[i].influencers <= after[i].influencers
                     && before[i].teamKills <= after[i].teamKills && before[i].teamDeaths <= after[i].teamDeaths
  }

  /** Damage done during a fight. Whoever hits a participant from outside becomes an influencer. */
  function WithDamage(f: TeamFight, me: int, t: Damage): TeamFight {
    var ours := TeamID(t.victimID) == TeamID(me);
    var joins := t.attackerID !in f.participants && t.victimID in f.participants && TeamID(t.attackerID) != 0;
    var influencers := if joins then f.influencers + {t.attackerID} else f.influencers;
    var dealt := if t.attackerID == me then WithMore(f.damageDealt, t) else f.damageDealt;
    var counts := !ours && (t.victimID in f.participants || t.victimID in influencers);
    var taken := if counts then WithMore(f.enemyDamageTaken, t) else f.enemyDamageTaken;
    var neutral := if TeamID(t.attackerID) == 0 && t.victimID in f.participants then t.percent else 0.0;
    f.(influencers := influencers, damageDealt := dealt, enemyDamageTaken := taken,
    neutralDamageTaken := f.neutralDamageTaken + if ours then neutral else 0.0,
    enemyNeutralDamageTaken := f.enemyNeutralDamageTaken + if ours then 0.0 else neutral)
  }

  function WithMore(damage: map<int, real>, t: Damage): map<int, real> {
    damage[t.victimID := Value(damage, t.victimID) + t.percent]
  }

  /** The damage that opens a fight also counts against the victim's side. */
  function WithFirstDamage(f: TeamFight, me: int, t: Damage): TeamFight {
    if TeamID(me) == TeamID(t.victimID)
    then f.(sumTeamHealthPercent := f.sumTeamHealthPercent - Round(t.percent))
    else f.(sumEnemyHealthPercent := f.sumEnemyHealthPercent - Round(t.percent))
  }

  /** A death of somebody involved is a kill or a death. */
  function WithDeath(f: TeamFight, me: int, victimID: int): TeamFight {
    if victimID !in f.participants + f.influencers then f
    else if TeamID(victimID) == TeamID(me) then f.(teamDeaths := f.teamDeaths + {victimID})
    else if TeamID(victimID) == EnemyTeamID(me) then f.(teamKills := f.teamKills + {victimID})
    else f
  }

  lemma FightStaysOk(f: TeamFight, me: int, t: Damage, victimID: int)
    requires FightOk(f, me)
    ensures FightOk(WithDamage(f, me, t), me) && FightOk(WithFirstDamage(f, me, t), me)
            && FightOk(WithDeath(f, me, victimID), me)
  {
    assert TeamID(t.attackerID) != 0 ==> t.attackerID in PLAYERS;
  }

  /** Replacing the last fight, or adding one when none is open, leaves all others closed. */
  lemma FightsStayOk(fights: seq<TeamFight>, f: TeamFight, c: Setting)
    requires FightsOk(fights, c) && FightOk(f, c.me)
    ensures fights != [] ==> FightsOk(fights[|fights| - 1 := f], c)
    ensures !IsOpen(fights, c.matchDuration) ==> FightsOk(fights + [f], c)
  {
  }

  /** More than thirty percent of health lost in two or more hits. */
  predicate IsSerious(d: ContinuousDamage) {
    d.totalPercent > 30.0 && d.numEvents > 1
  }

  /** What every view of a match is like. */
  ghost predicate ViewOk(c: Setting, v: View) {
    && c.me in PLAYERS
    && Spaced(v.states) && WithinWindow(v.states)
    && v.damage.Keys == PLAYERS && v.attack.Keys == PLAYERS
    && FightsOk(v.fights, c)
  }

  /** Nothing has happened yet. */
  function Start(): View {
    View(
      [], map p <- PLAYERS :: ContinuousDamage(0.0, 0.0, 0.0, 0), map p <- PLAYERS :: ContinuousAttack(0.0, 0.0), [])
  }

  /** The history with another newest snapshot. */
  function WithNewest(states: seq<Snapshot>, s: Snapshot): seq<Snapshot> {
    if states == [] then states else states[|states| - 1 := s]
  }

  lemma SameTimesKeepHistory(states: seq<Snapshot>, r: seq<Snapshot>)
    requires Spaced(states) && WithinWindow(states) && |r| == |states|
    requires forall k :: 0 <= k < |states| ==> r[k].seconds == states[k].seconds
    ensures Spaced(r) && WithinWindow(r)
  {
  }

  // ---------- Reports ----------

  /** The history extended to the time of a report, which is noted in its newest snapshot. */
  function WithReport(states: seq<Snapshot>, u: Update): seq<Snapshot> {
    var r := Extended(states, u.seconds);
    if r == [] then r else r[|r| - 1 := WithUpdate(r[|r| - 1], u)]
  }

  lemma WithReportIsWindow(states: seq<Snapshot>, u: Update)
    requires Spaced(states) && WithinWindow(states)
    ensures Spaced(WithReport(states, u)) && WithinWindow(WithReport(states, u))
  {
    hide Extended, Spaced, WithinWindow;
    ExtendedIsWindow(states, u.seconds);
    SameTimesKeepHistory(Extended(states, u.seconds), WithReport(states, u));
  }

  /** An open fight at a later snapshot: its gold difference is brought up to date, and unless somebody
      keeps it going it ends when a participant was last hit, provided that anyone ever was. */
  ghost function Reviewed(f: TeamFight, s: Snapshot, v: View, seconds: real, me: int): TeamFight {
    var teamGold, enemyGold := TeamGold(s, TeamID(me), true, 10), TeamGold(s, TeamID(me), false, 10);
    var g := f.(netGoldDiff := teamGold - f.teamGoldAtStart - (enemyGold - f.enemyGoldAtStart));
    var last := LastHit(f.participants, v.damage);
    if GoesOn(f.participants, s, v, seconds) || last == 0.0 then g else g.(end := last)
  }

  method Review(f: TeamFight, s: Snapshot, v: View, seconds: real, me: int) returns (g: Option<TeamFight>)
    requires f.participants <= v.damage.Keys && f.participants <= v.attack.Keys
    ensures if g.Some?
            then
              && g.value == Reviewed(f, s, v, seconds, me)
              && (MayReadNil(f.participants, s, v, seconds) ==> GoesOn(f.participants, s, v, seconds))
            else MayReadNil(f.participants, s, v, seconds)
  {
    hide MayReadNil, GoesOn, TeamGold, LastHit;
    var teamGold, enemyGold := FriendlyAndEnemyTeamGold(s, TeamID(me));
    var h := f.(netGoldDiff := teamGold - f.teamGoldAtStart - (enemyGold - f.enemyGoldAtStart));
    var end := FightEnd(f.participants, s, v, seconds);
    if end == None {
      return None;
    }
    if end.value != 0.0 {
      h := h.(end := end.value);
    }
    g := Some(h);
  }

  /** The view after a position report, which may end the open fight. */
  ghost function AfterReport(c: Setting, v: View, u: Update): Option<View> {
    var w := v.(states := WithReport(v.states, u));
    if !IsOpen(v.fights, c.matchDuration) then Some(w)
    else
      match Closest(w.states, u.seconds)
      case None => None
      case Some(i) =>
        var n := |v.fights| - 1;
        var f, s := v.fights[n], w.states[i];
        if MayReadNil(f.participants, s, v, u.seconds) && !GoesOn(f.participants, s, v, u.seconds) then None
        else Some(w.(fights := v.fights[n := Reviewed(f, s, v, u.seconds, c.me)]))
  }

  /** Whether reviewing the open fight can read through nil, in some order of its participants. */
  ghost predicate ReviewMayFail(c: Setting, v: View, u: Update) {
    IsOpen(v.fights, c.matchDuration) &&
    match Closest(WithReport(v.states, u), u.seconds)
    case None => true
    case Some(i) =>
      MayReadNil(v.fights[|v.fights| - 1].participants, WithReport(v.states, u)[i], v, u.seconds)
  }

  lemma AfterReportOk(c: Setting, v: View, u: Update)
    requires ViewOk(c, v) && AfterReport(c, v, u).Some?
    ensures var w := AfterReport(c, v, u).value;
            ViewOk(c, w) && OnlyOpenChanges(v.fights, w.fights, c.matchDuration) && |w.fights| == |v.fights|
  {
    hide Spaced, WithinWindow, Closest, WithReport, FightOk, MayReadNil, GoesOn;
    WithReportIsWindow(v.states, u);
    if IsOpen(v.fights, c.matchDuration) {
      var f, g := v.fights[|v.fights| - 1], AfterReport(c, v, u).value.fights[|v.fights| - 1];
      assert f in v.fights;
      ReviewKeepsFight(f, g, c.me);
      FightsStayOk(v.fights, g, c);
    }
  }

  /** A review changes the end and the gold difference only. */
  lemma ReviewKeepsFight(f: TeamFight, g: TeamFight, me: int)
    requires FightOk(f, me) && g == f.(end := g.end, netGoldDiff := g.netGoldDiff)
    ensures FightOk(g, me)
  {
  }

  lemma OpenFightIsOk(c: Setting, v: View)
    requires ViewOk(c, v) && IsOpen(v.fights, c.matchDuration)
    ensures var f := v.fights[|v.fights| - 1];
            FightOk(f, c.me) && f.participants <= v.damage.Keys && f.participants <= v.attack.Keys
  {
    assert v.fights[|v.fights| - 1] in v.fights;
  }

  // ---------- Damage ----------

  /** Damage by a turret or a monster is noted in the snapshot nearest to it. */
  function Hurt(s: Snapshot, t: Damage): Snapshot {
    s.(neutralDamage := s.neutralDamage[t.victimID := Value(s.neutralDamage, t.victimID) + t.percent])
  }

  /** The sessions of the victim, and of an attacker who is a champion, go on, or new ones start. */
  function Fed(v: View, t: Damage): View {
    var attack :=
      if TeamID(t.attackerID) == 0 then v.attack
      else v.attack[t.attackerID := HitsBy(v.attack, t.attackerID).Add(t.seconds)];
    v.(damage := v.damage[t.victimID := HitsOn(v.damage, t.victimID).Add(t.seconds, t.percent)], attack := attack)
  }

  /** The view once the damage counts in the open fight, or has opened one if it can. */
  ghost function Struck(c: Setting, v: View, t: Damage, wards: Wards): Option<View> {
    if IsOpen(v.fights, c.matchDuration) then
      Some(v.(fights := v.fights[|v.fights| - 1 := WithDamage(v.fights[|v.fights| - 1], c.me, t)]))
    else if !IsSerious(HitsOn(v.damage, t.victimID)) then Some(v)
    else
      match Opens(c, v.states, t.victimID, HitsOn(v.damage, t.victimID).startTime, t.seconds, wards)
      case NotOpened => Some(v)
      case NilRead => None
      case Opened(f) => Some(v.(fights := v.fights + [WithDamage(WithFirstDamage(f, c.me, t), c.me, t)]))
  }

  /** The view after damage. What a turret or a monster does is first noted in the nearest snapshot; if
      none is found the program fails. */
  ghost function AfterDamage(c: Setting, v: View, t: Damage, wards: Wards): Option<View> {
    if TeamID(t.attackerID) != 0 then Struck(c, Fed(v, t), t, wards)
    else
      match Closest(v.states, t.seconds)
      case None => None
      case Some(i) => Struck(c, Fed(v, t).(states := v.states[i := Hurt(v.states[i], t)]), t, wards)
  }

  lemma FedOk(c: Setting, v: View, t: Damage)
    requires ViewOk(c, v) && t.victimID in PLAYERS
    ensures ViewOk(c, Fed(v, t)) && Fed(v, t).fights == v.fights && Fed(v, t).states == v.states
  {
    hide Spaced, WithinWindow, FightsOk;
    assert TeamID(t.attackerID) != 0 ==> t.attackerID in PLAYERS;
  }

  lemma HurtOk(c: Setting, v: View, i: nat, t: Damage)
    requires ViewOk(c, v) && i < |v.states|
    ensures ViewOk(c, v.(states := v.states[i := Hurt(v.states[i], t)]))
  {
    hide FightsOk;
    SameTimesKeepHistory(v.states, v.states[i := Hurt(v.states[i], t)]);
  }

  lemma StruckOk(c: Setting, v: View, t: Damage, wards: Wards)
    requires ViewOk(c, v) && Struck(c, v, t, wards).Some?
    ensures var w := Struck(c, v, t, wards).value;
            ViewOk(c, w) && OnlyOpenChanges(v.fights, w.fights, c.matchDuration)
  {
    hide Spaced, WithinWindow, Opens, FightOk, WithDamage, WithFirstDamage;
    if IsOpen(v.fights, c.matchDuration) {
      var f := v.fights[|v.fights| - 1];
      assert f in v.fights;
      FightStaysOk(f, c.me, t, 0);
      DamageAddsOnly(f, c.me, t);
      FightsStayOk(v.fights, WithDamage(f, c.me, t), c);
    } else if IsSerious(HitsOn(v.damage, t.victimID)) {
      var start := HitsOn(v.damage, t.victimID).startTime;
      var opening := Opens(c, v.states, t.victimID, start, t.seconds, wards);
      if opening.Opened? {
        OpenedIsOk(c, v.states, t.victimID, start, t.seconds, wards);
        FightStaysOk(opening.fight, c.me, t, 0);
        var f := WithFirstDamage(opening.fight, c.me, t);
        FightStaysOk(f, c.me, t, 0);
        FightsStayOk(v.fights, WithDamage(f, c.me, t), c);
      }
    }
  }

  lemma DamageAddsOnly(f: TeamFight, me: int, t: Damage)
    ensures var g := WithDamage(f, me, t);
            && g.begin == f.begin && g.end == f.end && g.participants == f.participants
            && g.initialTarget == f.initialTarget && f.influencers <= g.influencers && g.teamKills == f.teamKills
            && g.teamDeaths == f.teamDeaths
  {
  }

  lemma AfterDamageOk(c: Setting, v: View, t: Damage, wards: Wards)
    requires ViewOk(c, v) && t.victimID in PLAYERS && AfterDamage(c, v, t, wards).Some?
    ensures var w := AfterDamage(c, v, t, wards).value;
            ViewOk(c, w) && OnlyOpenChanges(v.fights, w.fights, c.matchDuration)
  {
    hide ViewOk, Struck, Closest, Fed, OnlyOpenChanges;
    FedOk(c, v, t);
    if TeamID(t.attackerID) != 0 {
      StruckOk(c, Fed(v, t), t, wards);
    } else {
      var i := Closest(v.states, t.seconds).value;
      HurtOk(c, Fed(v, t), i, t);
      StruckOk(c, Fed(v, t).(states := v.states[i := Hurt(v.states[i], t)]), t, wards);
    }
  }

  // ---------- Deaths ----------

  /** The newest snapshot learns of a death. */
  function WithoutPlayer(states: seq<Snapshot>, victimID: int, seconds: real): seq<Snapshot> {
    if states == [] then states
    else
      var s := states[|states| - 1];
      WithNewest(states, s.(alive := s.alive - {victimID}, lastDeathTime := s.lastDeathTime[victimID := seconds]))
  }

  /** The fights once a death counts in the open one, or has opened one if it can. */
  ghost function Mourned(c: Setting, v: View, victimID: int, seconds: real, wards: Wards): Option<seq<TeamFight>> {
    if IsOpen(v.fights, c.matchDuration) then
      Some(v.fights[|v.fights| - 1 := WithDeath(v.fights[|v.fights| - 1], c.me, victimID)])
    else
      match Opens(c, v.states, victimID, HitsOn(v.damage, victimID).startTime, seconds, wards)
      case NotOpened => Some(v.fights)
      case NilRead => None
      case Opened(f) => Some(v.fights + [WithDeath(f, c.me, victimID)])
  }

  /** The view after a death. Only afterwards is the victim no longer alive, so his own death can open a fight. */
  ghost function AfterDeath(c: Setting, v: View, victimID: int, seconds: real, wards: Wards): Option<View> {
    match Mourned(c, v, victimID, seconds, wards)
    case None => None
    case Some(fights) => Some(v.(fights := fights, states := WithoutPlayer(v.states, victimID, seconds)))
  }

  lemma MournedOk(c: Setting, v: View, victimID: int, seconds: real, wards: Wards)
    requires ViewOk(c, v) && Mourned(c, v, victimID, seconds, wards).Some?
    ensures var fights := Mourned(c, v, victimID, seconds, wards).value;
            FightsOk(fights, c) && OnlyOpenChanges(v.fights, fights, c.matchDuration)
  {
    hide Spaced, WithinWindow, Opens, FightOk;
    var none := Damage(0.0, 0, 0, 0.0);
    if IsOpen(v.fights, c.matchDuration) {
      var f := v.fights[|v.fights| - 1];
      assert f in v.fights;
      FightStaysOk(f, c.me, none, victimID);
      FightsStayOk(v.fights, WithDeath(f, c.me, victimID), c);
    } else {
      var start := HitsOn(v.damage, victimID).startTime;
      var opening := Opens(c, v.states, victimID, start, seconds, wards);
      if opening.Opened? {
        OpenedIsOk(c, v.states, victimID, start, seconds, wards);
        FightStaysOk(opening.fight, c.me, none, victimID);
        FightsStayOk(v.fights, WithDeath(opening.fight, c.me, victimID), c);
      }
    }
  }

  lemma AfterDeathOk(c: Setting, v: View, victimID: int, seconds: real, wards: Wards)
    requires ViewOk(c, v) && AfterDeath(c, v, victimID, seconds, wards).Some?
    ensures var w := AfterDeath(c, v, victimID, seconds, wards).value;
            ViewOk(c, w) && OnlyOpenChanges(v.fights, w.fights, c.matchDuration)
  {
    hide Mourned, FightsOk, OnlyOpenChanges;
    MournedOk(c, v, victimID, seconds, wards);
    SameTimesKeepHistory(v.states, WithoutPlayer(v.states, victimID, seconds));
  }

  // ---------- What else is noted ----------

  /** A level gained, a summoner spell cast or a turret lost: the newest snapshot learns of it. */
  datatype Note =
    | LevelUp(participantID: int)
    | SpellCast(attackerID: int, slot: string, expires: real)
    | TurretKill(turretID: int)

  predicate IsSummonerSlot(slot: string) {
    slot == "Summoner1" || slot == "Summoner2"
  }

  function Noted(s: Snapshot, note: Note): Snapshot {
    match note
    case LevelUp(p) => s.(levels := s.levels[p := Amount(s.levels, p) + 1])
    case SpellCast(p, slot, expires) =>
      if IsSummonerSlot(slot) then s.(spells := s.spells[p := Spells(s, p)[slot := expires]]) else s
    case TurretKill(t) => s.(deadTurrets := s.deadTurrets + {t})
  }

  function AfterNote(v: View, note: Note): View {
    if v.states == [] then v else v.(states := WithNewest(v.states, Noted(v.states[|v.states| - 1], note)))
  }

  lemma AfterNoteOk(c: Setting, v: View, note: Note)
    requires ViewOk(c, v)
    ensures ViewOk(c, AfterNote(v, note))
  {
    hide FightsOk;
    SameTimesKeepHistory(v.states, AfterNote(v, note).states);
  }

  // ---------- The analysis ----------

  class TeamFightAnalysis {
    const setting: Setting
    var recentStates: seq<Snapshot>
    var damage: map<int, ContinuousDamage>
    var attack: map<int, ContinuousAttack>
    var fights: seq<TeamFight>

    function Now(): View
      reads this
    {
      View(recentStates, damage, attack, fights)
    }

    ghost predicate Valid()
      reads this
    {
      ViewOk(setting, Now())
    }

    constructor (setting: Setting)
      requires setting.me in PLAYERS
      ensures Valid() && this.setting == setting && Now() == Start()
    {
      this.setting := setting;
      recentStates, fights := [], [];
      damage := map p <- PLAYERS :: ContinuousDamage(0.0, 0.0, 0.0, 0);
      attack := map p <- PLAYERS :: ContinuousAttack(0.0, 0.0);
    }

    /** A position report refreshes the newest snapshot and may end the open fight. */
    method AddStateUpdate(u: Update) returns (ok: bool)
      requires Valid()
      modifies `recentStates, `fights
      ensures ok ==> Valid() && AfterReport(setting, old(Now()), u) == Some(Now())
      ensures !ok ==> ReviewMayFail(setting, old(Now()), u)
    {
      hide Spaced, WithinWindow, Extended, WithUpdate, Closest, FightsOk, Reviewed, OnlyOpenChanges, MayReadNil, GoesOn;
      var before := Now();
      WithReportIsWindow(recentStates, u);
      recentStates := UpdateRecentHistory(recentStates, u.seconds);
      if |recentStates| > 0 {
        recentStates := recentStates[|recentStates| - 1 := WithUpdate(recentStates[|recentStates| - 1], u)];
      }
      if IsOpen(fights, setting.matchDuration) {
        SpacedIsIncreasing(recentStates);
        var current := FindClosest(recentStates, u.seconds);
        if current == None {
          return false;
        }
        var n := |fights| - 1;
        OpenFightIsOk(setting, before);
        var g := Review(fights[n], recentStates[current.value], before, u.seconds, setting.me);
        if g == None {
          return false;
        }
        fights := fights[n := g.value];
      }
      ok := true;
      AfterReportOk(setting, before, u);
    }

    /** Damage feeds the sessions, counts in the open fight, and may open one. It fails exactly when there is
        no next view. */
    method AddDamage(t: Damage, wards: Wards) returns (ok: bool)
      requires Valid() && t.victimID in PLAYERS
      modifies `recentStates, `damage, `attack, `fights
      ensures ok ==> Valid() && AfterDamage(setting, old(Now()), t, wards) == Some(Now())
      ensures !ok ==> AfterDamage(setting, old(Now()), t, wards) == None
    {
      hide Spaced, WithinWindow, FightsOk, Opens, OnlyOpenChanges, WithDamage, WithFirstDamage, IsNearest, TeamID;
      ghost var before := Now();
      damage := damage[t.victimID := damage[t.victimID].Add(t.seconds, t.percent)];
      if TeamID(t.attackerID) != 0 {
        attack := attack[t.attackerID := HitsBy(attack, t.attackerID).Add(t.seconds)];
      } else {
        SpacedIsIncreasing(recentStates);
        var i := FindClosest(recentStates, t.seconds);
        if i == None {
          return false;
        }
        SameTimesKeepHistory(recentStates, recentStates[i.value := Hurt(recentStates[i.value], t)]);
        recentStates := recentStates[i.value := Hurt(recentStates[i.value], t)];
      }
      ok := Strike(t, wards);
      if ok {
        AfterDamageOk(setting, before, t, wards);
      }
    }

    /** The damage opens a fight if it is serious and none is open, and counts in the open one. */
    method Strike(t: Damage, wards: Wards) returns (ok: bool)
      requires Spaced(recentStates) && t.victimID in damage
      modifies `fights
      ensures ok ==> Struck(setting, old(Now()), t, wards) == Some(Now())
      ensures !ok ==> Struck(setting, old(Now()), t, wards) == None
    {
      hide Spaced, Opens, WithDamage, WithFirstDamage;
      var firstDamage := false;
      if !IsOpen(fights, setting.matchDuration) && IsSerious(damage[t.victimID]) {
        var opening := StartTeamFight(setting, recentStates, damage, t.victimID, t.seconds, wards);
        if opening.NilRead? {
          return false;
        }
        if opening.Opened? {
          OpenedEnds(setting, recentStates, t.victimID, damage[t.victimID].startTime, t.seconds, wards);
          fights := fights + [opening.fight];
        }
        firstDamage := true;
      }
      if IsOpen(fights, setting.matchDuration) {
        var n := |fights| - 1;
        if firstDamage {
          fights := fights[n := WithFirstDamage(fights[n], setting.me, t)];
        }
        fights := fights[n := WithDamage(fights[n], setting.me, t)];
      }
      assert firstDamage && |fights| > |old(fights)| ==> fights == old(fights) + [fights[|fights| - 1]];
      ok := true;
    }

    /** A death may open a fight, and counts in the open one; then the victim is no longer alive. */
    method AddDeath(victimID: int, seconds: real, wards: Wards) returns (ok: bool)
      requires Valid() && victimID in PLAYERS
      modifies `recentStates, `fights
      ensures ok ==> Valid() && AfterDeath(setting, old(Now()), victimID, seconds, wards) == Some(Now())
      ensures !ok ==> AfterDeath(setting, old(Now()), victimID, seconds, wards) == None
    {
      hide Spaced, WithinWindow, FightsOk, Opens, OnlyOpenChanges, WithDeath, WithoutPlayer;
      ghost var before := Now();
      if !IsOpen(fights, setting.matchDuration) {
        var opening := StartTeamFight(setting, recentStates, damage, victimID, seconds, wards);
        if opening.NilRead? {
          return false;
        }
        if opening.Opened? {
          OpenedEnds(setting, recentStates, victimID, damage[victimID].startTime, seconds, wards);
          fights := fights + [opening.fight];
        }
      }
      if IsOpen(fights, setting.matchDuration) {
        var n := |fights| - 1;
        fights := fights[n := WithDeath(fights[n], setting.me, victimID)];
      }
      assert |fights| > |old(fights)| ==> fights == old(fights) + [fights[|fights| - 1]];
      recentStates := WithoutPlayer(recentStates, victimID, seconds);
      ok := true;
      AfterDeathOk(setting, before, victimID, seconds, wards);
    }

    /** A level-up, a summoner spell or the loss of a turret is noted in the newest snapshot. */
    method AddNote(note: Note)
      requires Valid()
      modifies `recentStates
      ensures Valid() && Now() == AfterNote(old(Now()), note)
    {
      hide Spaced, WithinWindow, FightsOk, Noted;
      AfterNoteOk(setting, Now(), note);
      if recentStates == [] {
        return;
      }
      recentStates := WithNewest(recentStates, Noted(recentStates[|recentStates| - 1], note));
    }
  }
}
