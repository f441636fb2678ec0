/** The recent history of a match (lolstats-master/ingest/team_fights.go): snapshots of all ten
    players, at most four a second and not older than thirty seconds. */
module History {
  import opened Teams
  import opened Wrappers

  const WINDOW_SECONDS := 30.0
  const WINDOW_GRANULARITY := 0.25
  const FAR := 99999.0

  /** What is known of the players at one moment. A position is absent until it has been reported,
      although a copied snapshot has an entry for it. */
  datatype Snapshot = Snapshot(
    seconds: real,
    alive: set<int>,
    lastDeathTime: map<int, real>,
    positions: map<int, Option<Position>>,
    levels: map<int, int>,
    health: map<int, real>,
    goldAmount: map<int, int>,
    goldSpent: map<int, int>,
    spells: map<int, map<string, real>>,
    neutralDamage: map<int, real>,
    deadTurrets: set<int>)

  const PLAYERS: set<int> := set p: int | 1 <= p <= 10 && TeamID(p) != 0

  lemma TenPlayers()
    ensures |PLAYERS| == 10
  {
    assert PLAYERS == {1, 2, 3, 4, 5, 6, 7, 8, 9, 10};
  }

  function Amount(m: map<int, int>, p: int): int {
    if p in m then m[p] else 0
  }

  function Value(m: map<int, real>, p: int): real {
    if p in m then m[p] else 0.0
  }

  /** A new snapshot copies what the previous one says of each of the ten players, but not the
      neutral damage. */
  function Copy(seconds: real, previous: Option<Snapshot>): Snapshot {
    match previous
    case None =>
      Snapshot(
        seconds, PLAYERS, map[], map[], map p <- PLAYERS :: 1, map[], map[], map[],
        map p <- PLAYERS :: map["Summoner1" := 0.0, "Summoner2" := 0.0], map[], {})
    case Some(s) =>
      Snapshot(
        seconds,
        s.alive * PLAYERS,
        map p <- PLAYERS :: Value(s.lastDeathTime, p),
        map p <- PLAYERS :: if p in s.positions then s.positions[p] else None,
        map p <- PLAYERS :: Amount(s.levels, p),
        map p <- PLAYERS :: Value(s.health, p),
        map p <- PLAYERS :: Amount(s.goldAmount, p),
        map p <- PLAYERS :: Amount(s.goldSpent, p),
        map p <- PLAYERS :: if p in s.spells then s.spells[p] else map[],
        map[],
        s.deadTurrets)
  }

  /** Whether a player's position has been reported. Reading one that has not is reading through nil. */
  predicate IsKnown(s: Snapshot, p: int) {
    p in s.positions && s.positions[p].Some?
  }

  /** Whether two players are known to be within a distance of each other. */
  predicate Near(s: Snapshot, a: int, b: int, distance: real) {
    IsKnown(s, a) && IsKnown(s, b) && CloserThan(s.positions[a].value, s.positions[b].value, distance)
  }

  /** A snapshot can be used when it has an entry for ten positions, known or not. */
  predicate Usable(s: Snapshot) {
    |s.positions| == 10
  }

  // ---------- The sliding window ----------

  ghost predicate Increasing(states: seq<Snapshot>) {
    forall i, j :: 0 <= i < j < |states| ==> states[i].seconds < states[j].seconds
  }

  /** Neighbours are at least a quarter of a second apart. */
  ghost predicate Spaced(states: seq<Snapshot>) {
    forall i :: 0 < i < |states| ==> states[i].seconds - states[i - 1].seconds >= WINDOW_GRANULARITY
  }

  /** No snapshot is more than thirty seconds older than the newest. */
  ghost predicate WithinWindow(states: seq<Snapshot>) {
    forall i :: 0 <= i < |states| ==> states[|states| - 1].seconds - states[i].seconds <= WINDOW_SECONDS
  }

  lemma {:induction false} SpacedIsIncreasing(states: seq<Snapshot>)
    requires Spaced(states)
    ensures Increasing(states)
    ensures states != [] ==>
              states[|states| - 1].seconds - states[0].seconds >= (|states| - 1) as real * WINDOW_GRANULARITY
  {
    if |states| > 1 {
      var front := states[..|states| - 1];
      SpacedIsIncreasing(front);
      assert states[|states| - 1].seconds > front[|front| - 1].seconds;
      forall i | 0 <= i < |front| ensures states[i].seconds < states[|states| - 1].seconds {
        assert i < |front| - 1 ==> front[i].seconds < front[|front| - 1].seconds;
      }
    }
  }

  /** The window never holds more than 121 snapshots. */
  lemma WindowIsSmall(states: seq<Snapshot>)
    requires Spaced(states) && WithinWindow(states)
    ensures |states| <= 121
  {
    if states != [] {
      SpacedIsIncreasing(states);
      assert states[|states| - 1].seconds - states[0].seconds <= 30.0;
    }
  }

  /** The window without the snapshots before a moment. */
  function DropOld(states: seq<Snapshot>, limit: real): seq<Snapshot> {
    if states == [] || states[0].seconds >= limit then states else DropOld(states[1..], limit)
  }

  /** The snapshot for a new moment. */
  function NextSnapshot(states: seq<Snapshot>, seconds: real): Snapshot {
    Copy(seconds, if states == [] then None else Some(states[|states| - 1]))
  }

  predicate BelongsToNewest(states: seq<Snapshot>, seconds: real) {
    states != [] && seconds - states[|states| - 1].seconds < WINDOW_GRANULARITY
  }

  /** The window at a later moment. A reading less than a quarter of a second after the newest snapshot
      belongs to it. Otherwise a copy is added and what is older than thirty seconds is dropped. */
  function Extended(states: seq<Snapshot>, seconds: real): seq<Snapshot> {
    if BelongsToNewest(states, seconds) then states
    else DropOld(states + [NextSnapshot(states, seconds)], seconds - WINDOW_SECONDS)
  }

  /** What is dropped is a first part of the window, all of it old, and what is left begins with nothing old. */
  lemma {:induction false} DropOldIsSuffix(states: seq<Snapshot>, limit: real) returns (k: nat)
    ensures k <= |states| && DropOld(states, limit) == states[k..]
    ensures forall i :: 0 <= i < k ==> states[i].seconds < limit
    ensures k < |states| ==> states[k].seconds >= limit
  {
    if states == [] || states[0].seconds >= limit {
      k := 0;
    } else {
      var j := DropOldIsSuffix(states[1..], limit);
      k := j + 1;
      assert states[1..][j..] == states[k..];
      forall i | 0 <= i < k
        ensures states[i].seconds < limit
      {
        assert i > 0 ==> states[i] == states[1..][i - 1];
      }
    }
  }

  lemma {:induction false} DropOldKeepsSpaces(states: seq<Snapshot>, limit: real)
    requires Spaced(states)
    ensures Spaced(DropOld(states, limit))
  {
    if states != [] && states[0].seconds < limit {
      assert forall i :: 0 <= i < |states[1..]| ==> states[1..][i] == states[i + 1];
      DropOldKeepsSpaces(states[1..], limit);
    }
  }

  lemma SpacedGrows(states: seq<Snapshot>, s: Snapshot)
    requires Spaced(states) && (states != [] ==> s.seconds - states[|states| - 1].seconds >= WINDOW_GRANULARITY)
    ensures Spaced(states + [s])
  {
  }

  /** Neighbours stay apart, the window stays small, and the newest snapshot is the one for this moment. */
  lemma {:induction false} ExtendedIsWindow(states: seq<Snapshot>, seconds: real)
    requires Spaced(states) && WithinWindow(states)
    ensures var r := Extended(states, seconds);
            && r != [] && Spaced(r) && WithinWindow(r)
            && r[|r| - 1] == if BelongsToNewest(states, seconds) then states[|states| - 1]
                             else NextSnapshot(states, seconds)
  {
    hide Copy, DropOld, Spaced;
    if !BelongsToNewest(states, seconds) {
      var s, limit := NextSnapshot(states, seconds), seconds - WINDOW_SECONDS;
      NextIsNow(states, seconds);
      SpacedGrows(states, s);
      DropOldKeepsSpaces(states + [s], limit);
      var k := DropOldIsSuffix(states + [s], limit);
      assert k < |states| + 1 by {
        assert (states + [s])[|states|].seconds >= limit;
      }
      var r := DropOld(states + [s], limit);
      NothingOldIsLeft(r, limit);
    }
  }

  lemma NextIsNow(states: seq<Snapshot>, seconds: real)
    ensures NextSnapshot(states, seconds).seconds == seconds
  {
  }

  lemma NothingOldIsLeft(r: seq<Snapshot>, limit: real)
    requires Spaced(r) && r != [] && r[0].seconds >= limit
    ensures forall i :: 0 <= i < |r| ==> r[i].seconds >= limit
  {
    SpacedIsIncreasing(r);
  }

  /** Exactly the snapshots older than thirty seconds are dropped. */
  lemma {:induction false} OldOnesAreDropped(states: seq<Snapshot>, seconds: real, i: nat)
    requires Spaced(states) && !BelongsToNewest(states, seconds) && i < |states|
    ensures states[i] in Extended(states, seconds) <==> states[i].seconds >= seconds - WINDOW_SECONDS
  {
    hide Copy, DropOld;
    var s, limit := NextSnapshot(states, seconds), seconds - WINDOW_SECONDS;
    NextIsNow(states, seconds);
    var all := states + [s];
    SpacedGrows(states, s);
    SpacedIsIncreasing(all);
    var k := DropOldIsSuffix(all, limit);
    assert all[i] == states[i];
    if states[i].seconds >= limit {
      assert all[k..][i - k] == states[i];
    } else {
      forall j | 0 <= j < |all[k..]|
        ensures all[k..][j] != states[i]
      {
        assert all[k..][j] == all[k + j] && (j > 0 ==> all[k].seconds < all[k + j].seconds);
      }
    }
  }

  method UpdateRecentHistory(states: seq<Snapshot>, seconds: real) returns (r: seq<Snapshot>)
    requires Spaced(states) && WithinWindow(states)
    ensures r == Extended(states, seconds)
  {
    hide Spaced, WithinWindow, Copy;
    ExtendedIsWindow(states, seconds);
    var previous := None;
    if |states| > 0 {
      previous := Some(states[|states| - 1]);
      if seconds - states[|states| - 1].seconds < WINDOW_GRANULARITY {
        return states;
      }
    }
    r := states + [Copy(seconds, previous)];
    while r != [] && r[0].seconds < seconds - WINDOW_SECONDS
      invariant DropOld(r, seconds - WINDOW_SECONDS) == Extended(states, seconds)
      decreases |r|
    {
      r := r[1..];
    }
  }

  // ---------- The nearest snapshot ----------

  function Distance(time: real, s: Snapshot): real {
    if time < s.seconds then s.seconds - time else time - s.seconds
  }

  /** The usable snapshot nearest to `time`, and of two equally near ones the later. */
  ghost predicate IsNearest(states: seq<Snapshot>, time: real, i: nat) {
    && i < |states| && Usable(states[i])
    && (forall j :: 0 <= j < i && Usable(states[j]) ==> Distance(time, states[i]) <= Distance(time, states[j]))
    && (forall j :: i < j < |states| && Usable(states[j]) ==> Distance(time, states[i]) < Distance(time, states[j]))
  }

  /** No usable snapshot is closer in time, before or after. */
  lemma NearestInTime(states: seq<Snapshot>, time: real, i: nat, j: nat)
    requires IsNearest(states, time, i) && j < |states| && Usable(states[j])
    ensures states[i].seconds <= time ==> !(states[i].seconds < states[j].seconds < 2.0 * time - states[i].seconds)
    ensures time <= states[i].seconds ==> !(2.0 * time - states[i].seconds < states[j].seconds < states[i].seconds)
  {
  }

  ghost predicate IsNewestUsable(states: seq<Snapshot>, i: nat) {
    i < |states| && Usable(states[i]) && forall j :: i < j < |states| ==> !Usable(states[j])
  }

  /** There is at most one nearest snapshot. */
  lemma NearestIsUnique(states: seq<Snapshot>, time: real, i: nat, j: nat)
    requires IsNearest(states, time, i) && IsNearest(states, time, j)
    ensures i == j
  {
  }

  /** Some usable snapshot is nearest. */
  lemma {:induction false} NearestExists(states: seq<Snapshot>, time: real, u: nat) returns (i: nat)
    requires u < |states| && Usable(states[u])
    ensures IsNearest(states, time, i)
  {
    hide Usable, Distance;
    var n := |states| - 1;
    if u == n && forall j :: 0 <= j < n ==> !Usable(states[j]) {
      i := n;
    } else {
      var front := states[..n];
      var v: nat :| v < n && Usable(states[v]);
      assert front[v] == states[v];
      var k := NearestExists(front, time, v);
      i := if Usable(states[n]) && Distance(time, states[n]) <= Distance(time, states[k]) then n else k;
      forall j | 0 <= j < n && Usable(states[j])
        ensures Distance(time, states[k]) <= Distance(time, states[j])
        ensures k < j ==> Distance(time, states[k]) < Distance(time, states[j])
      {
        assert front[j] == states[j];
      }
    }
  }

  /** The nearest usable snapshot, if there is one. */
  ghost function Nearest(states: seq<Snapshot>, time: real): (r: Option<nat>)
    ensures r.Some? ==> r.value < |states| && IsNearest(states, time, r.value)
    ensures r.None? ==> forall i: nat :: !IsNearest(states, time, i)
  {
    if exists i: nat :: IsNearest(states, time, i) then
      var i: nat :| IsNearest(states, time, i);
      Some(i)
    else None
  }

  lemma {:induction false} NearestIs(states: seq<Snapshot>, time: real, i: nat)
    requires IsNearest(states, time, i)
    ensures Nearest(states, time) == Some(i)
  {
    NearestIsUnique(states, time, i, Nearest(states, time).value);
  }

  /** Whether the newest usable snapshot is near enough to be considered at all. */
  ghost predicate FindsSome(states: seq<Snapshot>, time: real) {
    exists i: nat :: IsNewestUsable(states, i) && Distance(time, states[i]) < FAR
  }

  /** What the search finds: the nearest usable snapshot, unless the newest usable one is 99999 seconds away. */
  ghost function Closest(states: seq<Snapshot>, time: real): (r: Option<nat>)
    ensures r.Some? ==> r.value < |states| && IsNearest(states, time, r.value)
  {
    if FindsSome(states, time) then Nearest(states, time) else None
  }

  lemma {:induction false} ClosestIs(states: seq<Snapshot>, time: real, r: Option<nat>)
    requires r.Some? ==> IsNearest(states, time, r.value)
    requires r.Some? <==> FindsSome(states, time)
    ensures r == Closest(states, time)
  {
    hide IsNearest, FindsSome;
    if r.Some? {
      NearestIs(states, time, r.value);
    }
  }

  lemma {:induction false} ClosestExists(states: seq<Snapshot>, time: real)
    ensures Closest(states, time).Some? <==> FindsSome(states, time)
  {
    hide IsNearest, Usable;
    if FindsSome(states, time) {
      var u: nat :| IsNewestUsable(states, u);
      var i := NearestExists(states, time, u);
    }
  }

  /** No snapshot is nearer to a later moment than the newest one. */
  lemma {:induction false} NewestIsClosest(states: seq<Snapshot>, time: real)
    requires Increasing(states) && states != []
    requires var s := states[|states| - 1]; Usable(s) && s.seconds <= time < s.seconds + FAR
    ensures Closest(states, time) == Some(|states| - 1)
  {
    assert IsNewestUsable(states, |states| - 1);
    assert IsNearest(states, time, |states| - 1);
    ClosestIs(states, time, Some(|states| - 1));
  }

  /** Going back from the newest snapshot and stopping as soon as the distance does not shrink finds
      the nearest one. Nothing is found exactly when no snapshot is usable or the newest usable one
      is 99999 seconds away. */
  method FindClosest(states: seq<Snapshot>, time: real) returns (r: Option<nat>)
    requires Increasing(states)
    ensures r == Closest(states, time)
  {
    r := None;
    var closest := FAR;
    var k := |states|;
    ghost var newest: nat := 0;
    while k > 0
      invariant 0 <= k <= |states|
      invariant r.None? ==> closest == FAR && forall j :: k <= j < |states| ==> !Usable(states[j])
      invariant r.Some? ==>
                  k <= r.value < |states| && Usable(states[r.value]) && closest == Distance(time, states[r.value]) < FAR
      invariant r.Some? ==> IsNewestUsable(states, newest) && Distance(time, states[newest]) < FAR
      invariant r.Some? ==> forall j :: k <= j < r.value ==> !Usable(states[j])
      invariant r.Some? ==> forall j :: r.value < j < |states| && Usable(states[j]) ==>
                                          closest < Distance(time, states[j])
    {
      k := k - 1;
      if !Usable(states[k]) {
        continue;
      }
      if Distance(time, states[k]) < closest {
        closest := Distance(time, states[k]);
      } else {
        if r.Some? {
          forall j | 0 <= j < r.value && Usable(states[j])
            ensures closest <= Distance(time, states[j])
          {
            assert j < k ==> states[j].seconds < states[k].seconds < states[r.value].seconds;
          }
        } else {
          assert IsNewestUsable(states, k);
        }
        ClosestIs(states, time, r);
        return;
      }
      if r.None? {
        newest := k;
      }
      r := Some(k);
    }
    ClosestIs(states, time, r);
  }

  // ---------- Gold ----------

  /** One position report of a player. */
  datatype Update = Update(seconds: real, participantID: int, position: Position, gold: int, health: real,
                           healthPercent: real)

  /** A drop of the gold amount is gold spent; a player who has health again, and did not just die,
      is alive again. */
  function WithUpdate(s: Snapshot, u: Update): Snapshot {
    var p := u.participantID;
    var had := Amount(s.goldAmount, p);
    s.(
    positions := s.positions[p := Some(u.position)],
    goldSpent := if u.gold < had then s.goldSpent[p := Amount(s.goldSpent, p) + had - u.gold] else s.goldSpent,
    goldAmount := s.goldAmount[p := u.gold],
    alive := if u.health > 0.0 && u.seconds > Value(s.lastDeathTime, p) - 2.0 then s.alive + {p} else s.alive,
    health := s.health[p := u.healthPercent])
  }

  /** All that was ever gained in a list of gold readings that starts from nothing. */
  function Rises(readings: seq<int>): int {
    if readings == [] then 0
    else
      var n := |readings| - 1;
      var before := if n == 0 then 0 else readings[n - 1];
      Rises(readings[..n]) + (if readings[n] > before then readings[n] - before else 0)
  }

  function Drops(readings: seq<int>): int {
    if readings == [] then 0
    else
      var n := |readings| - 1;
      var before := if n == 0 then 0 else readings[n - 1];
      Drops(readings[..n]) + (if readings[n] < before then before - readings[n] else 0)
  }

  /** What a snapshot says of a player's gold accounts for every reading so far. */
  ghost predicate GoldAccounted(s: Snapshot, p: int, readings: seq<int>) {
    && Amount(s.goldAmount, p) == (if readings == [] then 0 else readings[|readings| - 1])
    && Amount(s.goldSpent, p) == Drops(readings)
    && Amount(s.goldAmount, p) + Amount(s.goldSpent, p) == Rises(readings)
  }

  lemma CopyKeepsGold(s: Snapshot, seconds: real, p: int, readings: seq<int>)
    requires p in PLAYERS && GoldAccounted(s, p, readings)
    ensures GoldAccounted(Copy(seconds, Some(s)), p, readings)
  {
  }

  lemma UpdateKeepsGold(s: Snapshot, u: Update, p: int, readings: seq<int>)
    requires GoldAccounted(s, p, readings)
    ensures GoldAccounted(WithUpdate(s, u), p, if p == u.participantID then readings + [u.gold] else readings)
  {
    if p == u.participantID {
      var more := readings + [u.gold];
      assert more[..|readings|] == readings;
    }
  }

  /** The state of one player's gold over a whole history of readings and copies. */
  datatype GoldStep = Copied(seconds: real) | Reported(update: Update)

  function AfterStep(s: Snapshot, step: GoldStep): Snapshot {
    match step
    case Copied(seconds) => Copy(seconds, Some(s))
    case Reported(u) => WithUpdate(s, u)
  }

  function AfterSteps(s: Snapshot, steps: seq<GoldStep>): Snapshot {
    if steps == [] then s else AfterStep(AfterSteps(s, steps[..|steps| - 1]), steps[|steps| - 1])
  }

  function ReadingsOf(p: int, steps: seq<GoldStep>): seq<int> {
    if steps == [] then []
    else
      var before, last := ReadingsOf(p, steps[..|steps| - 1]), steps[|steps| - 1];
      if last.Reported? && last.update.participantID == p then before + [last.update.gold] else before
  }

  /** However often the state was copied in between, no gold is lost or invented. */
  lemma {:induction false} GoldIsConserved(first: real, steps: seq<GoldStep>, p: int)
    requires p in PLAYERS
    ensures GoldAccounted(AfterSteps(Copy(first, None), steps), p, ReadingsOf(p, steps))
  {
    if steps != [] {
      var front, last := steps[..|steps| - 1], steps[|steps| - 1];
      GoldIsConserved(first, front, p);
      match last
      case Copied(seconds) => CopyKeepsGold(AfterSteps(Copy(first, None), front), seconds, p, ReadingsOf(p, front));
      case Reported(u) => UpdateKeepsGold(AfterSteps(Copy(first, None), front), u, p, ReadingsOf(p, front));
    }
  }
}
