/** Participants and actors of a match (lolstats-master/baseview). */
module Teams {
  const BLUE_TEAM := 100
  const RED_TEAM := 200

  const ACTOR_MINION := "minion"
  const ACTOR_TURRET := "turret"

  const MONSTER_RIFT_HERALD := 300
  const MONSTER_BARON := 301
  const MONSTER_DRAGON_ELEMENTAL := 302
  const MONSTER_DRAGON_ELDER := 303

  /** Participants 1 to 5 are blue, 6 to 10 are red; nobody else is on a team. */
  function TeamID(participantID: int): int {
    if 1 <= participantID <= 5 then BLUE_TEAM
    else if 6 <= participantID <= 10 then RED_TEAM
    else 0
  }

  function EnemyTeamID(participantID: int): int {
    if TeamID(participantID) == BLUE_TEAM then RED_TEAM
    else if TeamID(participantID) == RED_TEAM then BLUE_TEAM
    else 0
  }

  /** A place on the map; heights never matter here. */
  datatype Position = Position(x: real, y: real)

  /** Whether two places are less than `d` apart, said without a square root. */
  predicate CloserThan(p: Position, q: Position, d: real) {
    (p.x - q.x) * (p.x - q.x) + (p.y - q.y) * (p.y - q.y) < d * d
  }

  function Sideways(a: real, b: real): real {
    if a < b then b - a else a - b
  }

  /** Places that are closer than `d` differ by less in either direction, and places that differ by less in both
      directions together are closer. */
  lemma CloserInEachDirection(p: Position, q: Position, d: real)
    requires 0.0 <= d
    ensures CloserThan(p, q, d) ==> -d < p.x - q.x < d && -d < p.y - q.y < d
    ensures Sideways(p.x, q.x) + Sideways(p.y, q.y) < d ==> CloserThan(p, q, d)
  {
    var x, y := Sideways(p.x, q.x), Sideways(p.y, q.y);
    assert (p.x - q.x) * (p.x - q.x) == x * x && (p.y - q.y) * (p.y - q.y) == y * y;
    assert 0.0 <= x * x && 0.0 <= y * y && 0.0 <= x * y;
    if x + y < d {
      Squares(x + y, d);
      assert (x + y) * (x + y) == x * x + y * y + 2.0 * (x * y);
    }
    if CloserThan(p, q, d) {
      Squares(x, d);
      Squares(y, d);
    }
  }

  lemma Squares(a: real, b: real)
    requires 0.0 <= a && 0.0 <= b
    ensures a < b <==> a * a < b * b
  {
    var less, sum := b - a, b + a;
    assert b * b - a * a == less * sum;
    if a < b {
      assert less * sum > 0.0 by {
        assert less > 0.0 && sum > 0.0;
      }
    } else {
      assert less * sum <= 0.0;
    }
  }
}
