/** Who was in sight shortly before a fight (lolstats-master/ingest/team_fights.go). A position that has
    never been reported is nil, and reading it makes the program fail. */
module Sight {
  import opened History
  import opened MapOrder
  import opened Teams
  import opened Wrappers

  const VISION_WINDOW_HIDDEN_MAX := 8.0
  const VISION_WINDOW_HIDDEN_MIN := 4.0
  const CHAMPION_SIGHT := 1200.0
  const TURRET_SIGHT := 1095.0

  /** The map: which places are in the jungle, and where the turrets stand. */
  datatype World = World(isJungle: Position -> bool, turrets: map<int, Position>)

  /** Whether a ward of the other team sees a player who is at a place at a moment. */
  type Wards = (int, real, Position) -> bool

  // ---------- Enemies nearby ----------

  /** Two living players of different teams. */
  predicate AreFoes(s: Snapshot, i: int, p: int) {
    i in s.alive && p in s.alive && TeamID(i) != TeamID(p)
  }

  /** Looks for a living enemy nearby among the players from the `i`th on. */
  function ScanEnemies(s: Snapshot, p: int, distance: real, i: nat): Option<bool>
    decreases 11 - i
  {
    if i > 10 then Some(false)
    else if AreFoes(s, i, p) then
      if !IsKnown(s, i) || !IsKnown(s, p) then None
      else if Near(s, i, p, distance) then Some(true)
      else ScanEnemies(s, p, distance, i + 1)
    else ScanEnemies(s, p, distance, i + 1)
  }

  /** A living enemy whose position is nil, or read against a nil position. */
  predicate IsUnreadable(s: Snapshot, k: int, p: int) {
    AreFoes(s, k, p) && !(IsKnown(s, k) && IsKnown(s, p))
  }

  predicate IsThreat(s: Snapshot, k: int, p: int, distance: real) {
    AreFoes(s, k, p) && Near(s, k, p, distance)
  }

  /** The scan says no exactly when all living enemies are known to be away; it says yes only when one is
      nearby, and fails only on a nil position. */
  lemma {:induction false} ScanFinds(s: Snapshot, p: int, distance: real, i: nat)
    ensures ScanEnemies(s, p, distance, i) == Some(false) <==>
            forall k: int :: i <= k <= 10 ==> !IsUnreadable(s, k, p) && !IsThreat(s, k, p, distance)
    ensures ScanEnemies(s, p, distance, i) == Some(true) ==>
              exists k: int :: i <= k <= 10 && IsThreat(s, k, p, distance)
    ensures ScanEnemies(s, p, distance, i) == None ==> exists k: int :: i <= k <= 10 && IsUnreadable(s, k, p)
    decreases 11 - i
  {
    hide AreFoes, IsKnown;
    if i <= 10 {
      ScanFinds(s, p, distance, i + 1);
      assert AreFoes(s, i, p) && IsKnown(s, i) && IsKnown(s, p) && Near(s, i, p, distance) ==>
          IsThreat(s, i, p, distance);
      assert AreFoes(s, i, p) && !(IsKnown(s, i) && IsKnown(s, p)) ==> IsUnreadable(s, i, p);
    }
  }

  /** All living players are known. */
  ghost predicate AliveKnown(s: Snapshot) {
    forall p <- s.alive * PLAYERS :: IsKnown(s, p)
  }

  ghost predicate AllKnown(s: Snapshot) {
    forall p <- PLAYERS :: IsKnown(s, p)
  }

  lemma KnownScan(s: Snapshot, p: int, distance: real, i: nat)
    requires AliveKnown(s) && p in PLAYERS && i > 0
    ensures ScanEnemies(s, p, distance, i).Some?
  {
    ScanFinds(s, p, distance, i);
    forall k: int | i <= k <= 10
      ensures !IsUnreadable(s, k, p)
    {
      assert AreFoes(s, k, p) ==> k in s.alive * PLAYERS && p in s.alive * PLAYERS;
    }
  }

  method IsEnemyNear(s: Snapshot, p: int, distance: real) returns (r: Option<bool>)
    ensures r == ScanEnemies(s, p, distance, 1)
  {
    for i := 1 to 11
      invariant ScanEnemies(s, p, distance, i) == ScanEnemies(s, p, distance, 1)
    {
      if i in s.alive && p in s.alive && TeamID(i) != TeamID(p) {
        if !IsKnown(s, i) || !IsKnown(s, p) {
          return None;
        }
        if Near(s, i, p, distance) {
          return Some(true);
        }
      }
    }
    return Some(false);
  }

  // ---------- Vision ----------

  predicate TurretSees(s: Snapshot, t: int, p: int, place: Position, turrets: map<int, Position>)
    requires t in turrets
  {
    t / 100 != TeamID(p) / 100 && t !in s.deadTurrets && CloserThan(place, turrets[t], TURRET_SIGHT)
  }

  /** The turrets of a player's own team, numbered by hundreds, do not give him away, and neither do lost ones. */
  lemma OwnTurretsAreBlind(s: Snapshot, t: int, p: int, place: Position, turrets: map<int, Position>)
    requires t in turrets && TurretSees(s, t, p, place, turrets)
    ensures t !in s.deadTurrets && CloserThan(place, turrets[t], 1095.0)
    ensures 1 <= p <= 5 ==> !(100 <= t < 200)
    ensures 6 <= p <= 10 ==> !(200 <= t < 300)
  {
  }

  /** A standing turret of the other team does when it is close enough. */
  lemma EnemyTurretsSee(s: Snapshot, t: int, p: int, place: Position, turrets: map<int, Position>)
    requires t in turrets && t !in s.deadTurrets && CloserThan(place, turrets[t], 1095.0)
    requires (1 <= p <= 5 && 200 <= t < 300) || (6 <= p <= 10 && 100 <= t < 200)
    ensures TurretSees(s, t, p, place, turrets)
  {
  }

  method IsTurretNear(s: Snapshot, p: int, place: Position, turrets: map<int, Position>) returns (r: bool)
    ensures r <==> exists t <- turrets :: TurretSees(s, t, p, place, turrets)
  {
    var left := turrets.Keys;
    while left != {}
      invariant left <= turrets.Keys
      invariant forall t <- turrets :: t !in left ==> !TurretSees(s, t, p, place, turrets)
      decreases |left|
    {
      var t := Next(left);
      left := left - {t};
      if TurretSees(s, t, p, place, turrets) {
        return true;
      }
    }
    return false;
  }

  /** Whether a player was in sight in one snapshot: outside the jungle, or close to an enemy, a standing
      enemy turret or an enemy ward. */
  ghost function SeenAt(s: Snapshot, p: int, world: World, wards: Wards): Option<bool> {
    if !IsKnown(s, p) then None
    else
      var place := s.positions[p].value;
      if !world.isJungle(place) then Some(true)
      else if ScanEnemies(s, p, CHAMPION_SIGHT, 1) == Some(false) then
        Some((exists t <- world.turrets :: TurretSees(s, t, p, place, world.turrets)) || wards(p, s.seconds, place))
      else ScanEnemies(s, p, CHAMPION_SIGHT, 1)
  }

  method IsSeen(s: Snapshot, p: int, world: World, wards: Wards) returns (r: Option<bool>)
    ensures r == SeenAt(s, p, world, wards)
  {
    hide ScanEnemies, TurretSees;
    if !IsKnown(s, p) {
      return None;
    }
    var place := s.positions[p].value;
    if !world.isJungle(place) {
      return Some(true);
    }
    r := IsEnemyNear(s, p, CHAMPION_SIGHT);
    if r == Some(false) {
      var turret := IsTurretNear(s, p, place, world.turrets);
      r := Some(turret || wards(p, s.seconds, place));
    }
  }

  /** The moments that matter lie between eight and four seconds before. */
  predicate Matters(s: Snapshot, time: real) {
    time - VISION_WINDOW_HIDDEN_MAX <= s.seconds <= time - VISION_WINDOW_HIDDEN_MIN
  }

  /** Whether a player was in sight at any of the moments that matter. */
  ghost function InVision(states: seq<Snapshot>, time: real, p: int, world: World, wards: Wards): Option<bool> {
    if states == [] || states[0].seconds > time - VISION_WINDOW_HIDDEN_MIN then Some(false)
    else if states[0].seconds < time - VISION_WINDOW_HIDDEN_MAX
            || SeenAt(states[0], p, world, wards) == Some(false) then
      InVision(states[1..], time, p, world, wards)
    else SeenAt(states[0], p, world, wards)
  }

  method IsInVision(states: seq<Snapshot>, time: real, p: int, world: World, wards: Wards) returns (r: Option<bool>)
    ensures r == InVision(states, time, p, world, wards)
  {
    hide SeenAt;
    for i := 0 to |states|
      invariant InVision(states[i..], time, p, world, wards) == InVision(states, time, p, world, wards)
    {
      assert states[i..][0] == states[i] && states[i..][1..] == states[i + 1..];
      if states[i].seconds < time - VISION_WINDOW_HIDDEN_MAX {
        continue;
      } else if states[i].seconds > time - VISION_WINDOW_HIDDEN_MIN {
        return Some(false);
      }
      var seen := IsSeen(states[i], p, world, wards);
      if seen != Some(false) {
        return seen;
      }
    }
    return Some(false);
  }

  ghost predicate Unseen(s: Snapshot, time: real, p: int, world: World, wards: Wards) {
    Matters(s, time) ==> SeenAt(s, p, world, wards) == Some(false)
  }

  ghost predicate NeverSeen(states: seq<Snapshot>, time: real, p: int, world: World, wards: Wards) {
    forall i :: 0 <= i < |states| ==> Unseen(states[i], time, p, world, wards)
  }

  /** A moment that matters and tells whether the player was seen. */
  ghost predicate Tells(s: Snapshot, time: real, p: int, world: World, wards: Wards, seen: Option<bool>) {
    Matters(s, time) && SeenAt(s, p, world, wards) == seen
  }

  /** Stopping at the first snapshot that is too new loses nothing: a player was out of sight exactly when
      no snapshot that matters shows him seen. */
  lemma {:induction false} StoppingLosesNothing(states: seq<Snapshot>, time: real, p: int, world: World, wards: Wards)
    requires Increasing(states)
    ensures InVision(states, time, p, world, wards) == Some(false) <==> NeverSeen(states, time, p, world, wards)
  {
    hide SeenAt;
    if states != [] {
      var rest := states[1..];
      assert forall i :: 0 <= i < |rest| ==> rest[i] == states[i + 1];
      if states[0].seconds > time - VISION_WINDOW_HIDDEN_MIN {
        forall i | 0 <= i < |states|
          ensures !Matters(states[i], time)
        {
          assert i > 0 ==> states[0].seconds < states[i].seconds;
        }
      } else {
        StoppingLosesNothing(rest, time, p, world, wards);
        assert NeverSeen(states, time, p, world, wards) <==>
               Unseen(states[0], time, p, world, wards) && NeverSeen(rest, time, p, world, wards) by {
          hide Unseen;
          if Unseen(states[0], time, p, world, wards) && NeverSeen(rest, time, p, world, wards) {
            forall i | 0 <= i < |states|
              ensures Unseen(states[i], time, p, world, wards)
            {
              assert i > 0 ==> states[i] == rest[i - 1];
            }
          }
          if NeverSeen(states, time, p, world, wards) {
            forall i | 0 <= i < |rest|
              ensures Unseen(rest[i], time, p, world, wards)
            {
              assert rest[i] == states[i + 1];
            }
          }
        }
      }
    }
  }

  /** Whatever else is found comes from a snapshot that matters. */
  lemma {:induction false} SeenSomewhere(states: seq<Snapshot>, time: real, p: int, world: World, wards: Wards)
    returns (i: nat)
    requires InVision(states, time, p, world, wards) != Some(false)
    ensures i < |states| && Tells(states[i], time, p, world, wards, InVision(states, time, p, world, wards))
  {
    hide SeenAt;
    if states[0].seconds < time - VISION_WINDOW_HIDDEN_MAX || SeenAt(states[0], p, world, wards) == Some(false) {
      i := SeenSomewhere(states[1..], time, p, world, wards);
      i := i + 1;
    } else {
      i := 0;
    }
  }

  /** Where everybody is known nothing can fail. */
  lemma {:induction false} KnownVision(states: seq<Snapshot>, time: real, p: int, world: World, wards: Wards)
    requires forall s <- states :: AllKnown(s)
    requires p in PLAYERS
    ensures InVision(states, time, p, world, wards).Some?
  {
    if states != [] {
      KnownVision(states[1..], time, p, world, wards);
      assert states[0] in states;
      KnownScan(states[0], p, CHAMPION_SIGHT, 1);
    }
  }
}
