/** The buddy finder (lolstats-master/ingest/buddies.go) counts who stays close to whom early on. */
module Buddies {
  import opened MapOrder
  import opened Teams

  type Scores = map<int, map<int, int>>

  function ScoreOf(scores: Scores, p: int, k: int): int {
    if p in scores && k in scores[p] then scores[p][k] else 0
  }

  /** Scores are positive counts, between different members of one team. */
  ghost predicate ScoresOk(scores: Scores) {
    forall p <- scores :: forall k <- scores[p] :: scores[p][k] > 0 && k != p && TeamID(k) == TeamID(p)
  }

  /** What one early position update adds to the score of `p` with `k`. */
  function Point(positions: map<int, Position>, p: int, k: int): int {
    if p in positions && k in positions && k != p && TeamID(k) == TeamID(p)
       && CloserThan(positions[p], positions[k], 2000.0)
    then 1 else 0
  }

  predicate IsEarly(sec: real) {
    100.0 <= sec <= 600.0
  }

  /** `k` is a buddy of `p` outside `taken` with the highest score, or -1 when there is none. */
  ghost predicate IsBuddyFor(scores: Scores, p: int, taken: set<int>, k: int) {
    if exists j :: j !in taken && ScoreOf(scores, p, j) > 0
    then
      && k !in taken && ScoreOf(scores, p, k) > 0
      && forall j :: j !in taken ==> ScoreOf(scores, p, j) <= ScoreOf(scores, p, k)
    else k == -1
  }

  /** One more point between two players. */
  function WithPoint(scores: Scores, p: int, k: int): Scores {
    var own := if p in scores then scores[p] else map[];
    scores[p := own[k := ScoreOf(scores, p, k) + 1]]
  }

  lemma PointCounts(scores: Scores, p: int, k: int)
    requires ScoresOk(scores) && k != p && TeamID(k) == TeamID(p)
    ensures ScoresOk(WithPoint(scores, p, k))
    ensures forall q, j ::
              ScoreOf(WithPoint(scores, p, k), q, j) == ScoreOf(scores, q, j) + (if q == p && j == k then 1 else 0)
  {
  }

  class BuddyFinder {
    var earlyGameBuddyScore: Scores
    var lastStateUpdates: map<int, Position>

    constructor ()
      ensures earlyGameBuddyScore == map[] && lastStateUpdates == map[]
    {
      earlyGameBuddyScore, lastStateUpdates := map[], map[];
    }

    /** Every teammate within 2000 units earns a point once all ten positions are known. */
    method AddStateUpdate(sec: real, participantID: int, position: Position)
      requires ScoresOk(earlyGameBuddyScore)
      modifies this
      ensures ScoresOk(earlyGameBuddyScore)
      ensures lastStateUpdates == if IsEarly(sec) then old(lastStateUpdates)[participantID := position]
                                  else old(lastStateUpdates)
      ensures forall p, k ::
                ScoreOf(earlyGameBuddyScore, p, k) == old(ScoreOf(earlyGameBuddyScore, p, k))
                + (if IsEarly(sec) && |lastStateUpdates| == 10 && p == participantID
                   then Point(lastStateUpdates, p, k) else 0)
    {
      hide ScoreOf, ScoresOk, WithPoint;
      if sec < 100.0 || sec > 600.0 {
        return;
      }
      lastStateUpdates := lastStateUpdates[participantID := position];
      if |lastStateUpdates| != 10 {
        return;
      }
      var teamID := TeamID(participantID);
      var keys := lastStateUpdates.Keys;
      while keys != {}
        invariant keys <= lastStateUpdates.Keys
        invariant lastStateUpdates == old(lastStateUpdates)[participantID := position]
        invariant ScoresOk(earlyGameBuddyScore)
        invariant forall p, k ::
                    ScoreOf(earlyGameBuddyScore, p, k) == old(ScoreOf(earlyGameBuddyScore, p, k))
                    + (if p == participantID && k !in keys then Point(lastStateUpdates, p, k) else 0)
        decreases |keys|
      {
        var k := Next(keys);
        keys := keys - {k};
        if k == participantID || TeamID(k) != teamID {
          continue;
        }
        if CloserThan(position, lastStateUpdates[k], 2000.0) {
          PointCounts(earlyGameBuddyScore, participantID, k);
          earlyGameBuddyScore := WithPoint(earlyGameBuddyScore, participantID, k);
        }
      }
    }

    /** Whatever order the scores come in, a free teammate with the highest score is found. */
    method BuddyFor(participantID: int, taken: set<int>) returns (bestMatch: int)
      requires ScoresOk(earlyGameBuddyScore)
      ensures IsBuddyFor(earlyGameBuddyScore, participantID, taken, bestMatch)
    {
      var highestScore := 0;
      bestMatch := -1;
      var own := if participantID in earlyGameBuddyScore then earlyGameBuddyScore[participantID] else map[];
      var keys := own.Keys;
      while keys != {}
        invariant keys <= own.Keys
        invariant highestScore == 0 ==> bestMatch == -1
        invariant highestScore >= 0
        invariant highestScore > 0 ==> bestMatch !in taken && bestMatch in own && own[bestMatch] == highestScore
        invariant forall j <- own :: j !in keys && j !in taken ==> own[j] <= highestScore
        decreases |keys|
      {
        var k := Next(keys);
        keys := keys - {k};
        if k in taken {
          continue;
        }
        if own[k] > highestScore {
          highestScore, bestMatch := own[k], k;
        }
      }
      assert forall j :: ScoreOf(earlyGameBuddyScore, participantID, j) == if j in own then own[j] else 0;
    }
  }
}
