/** Ward pairing (lolelo-master/event/to_baseview.go): every ward that appeared is paired, in place and
    greedily, with one of the casts that may have created it. The distance between two places is a
    parameter. */
module Wards {
  import opened Teams
  import opened Wrappers

  datatype Creation = Creation(networkID: int, teamID: int, position: Position, seconds: real)

  datatype Cast = Cast(networkID: int, positionEnd: Position, seconds: real, itemType: string)

  datatype WardPlaced = WardPlaced(
    participantID: int, position: Position, itemType: string, wardID: int, teamID: int, seconds: real)

  type Distance = (Position, Position) -> real

  const BEST_COST := 100000.0

  function Apart(create: Creation, spell: Cast): real {
    if create.seconds < spell.seconds then spell.seconds - create.seconds else create.seconds - spell.seconds
  }

  /** A second of difference costs as much as a hundred units of distance. */
  function Cost(dist: Distance, create: Creation, spell: Cast): real {
    dist(spell.positionEnd, create.position) + Apart(create, spell) * 100.0
  }

  /** Whose cast it was, as far as the match knows. */
  predicate IsKnown(spell: Cast, netIDs: map<int, int>) {
    spell.networkID in netIDs
  }

  predicate SameTeam(create: Creation, spell: Cast, netIDs: map<int, int>) {
    IsKnown(spell, netIDs) && TeamID(netIDs[spell.networkID]) == create.teamID
  }

  /** A cast of the ward's team within thirty seconds that is not too costly. */
  predicate Suits(dist: Distance, create: Creation, spell: Cast, netIDs: map<int, int>) {
    SameTeam(create, spell, netIDs) && Apart(create, spell) <= 30.0 && Cost(dist, create, spell) < BEST_COST
  }

  /** Which casts suit a ward, said of distances and seconds alone. */
  lemma SuitsExactly(dist: Distance, create: Creation, spell: Cast, netIDs: map<int, int>)
    ensures Suits(dist, create, spell, netIDs) <==>
            && spell.networkID in netIDs && TeamID(netIDs[spell.networkID]) == create.teamID
            && create.seconds - 30.0 <= spell.seconds <= create.seconds + 30.0
            && dist(spell.positionEnd, create.position) + 100.0 * (create.seconds - spell.seconds) < 100000.0
            && dist(spell.positionEnd, create.position) + 100.0 * (spell.seconds - create.seconds) < 100000.0
  {
  }

  /** The search goes on past a cast unless its caster is unknown or it is one of the ward's own
      team more than thirty seconds away. */
  predicate Passes(create: Creation, spell: Cast, netIDs: map<int, int>) {
    IsKnown(spell, netIDs) && (SameTeam(create, spell, netIDs) ==> Apart(create, spell) <= 30.0)
  }

  /** How many casts the search looks at. */
  function Reach(create: Creation, spells: seq<Cast>, netIDs: map<int, int>): (n: nat)
    ensures n <= |spells|
    ensures forall i :: 0 <= i < n ==> Passes(create, spells[i], netIDs)
    ensures n < |spells| ==> !Passes(create, spells[n], netIDs)
  {
    if spells == [] || !Passes(create, spells[0], netIDs) then 0
    else
      var rest := spells[1..];
      assert forall i :: 0 <= i < |rest| ==> rest[i] == spells[i + 1];
      1 + Reach(create, rest, netIDs)
  }

  /** The search runs into a cast of somebody unknown, which is an error. */
  predicate MeetsUnknown(create: Creation, spells: seq<Cast>, netIDs: map<int, int>) {
    var n := Reach(create, spells, netIDs);
    n < |spells| && !IsKnown(spells[n], netIDs)
  }

  /** The first of the cheapest suitable casts within reach. */
  ghost predicate IsFirstMatch(dist: Distance, create: Creation, spells: seq<Cast>, netIDs: map<int, int>, i: nat) {
    && i < Reach(create, spells, netIDs)
    && !MeetsUnknown(create, spells, netIDs)
    && Suits(dist, create, spells[i], netIDs)
    && (forall j :: 0 <= j < Reach(create, spells, netIDs) && Suits(dist, create, spells[j], netIDs) ==>
                      Cost(dist, create, spells[i]) <= Cost(dist, create, spells[j]))
    && (forall j :: 0 <= j < i && Suits(dist, create, spells[j], netIDs) ==>
                      Cost(dist, create, spells[i]) < Cost(dist, create, spells[j]))
  }

  /** No suitable cast is within reach, or the search runs into an unknown caster. */
  ghost predicate HasNoMatch(dist: Distance, create: Creation, spells: seq<Cast>, netIDs: map<int, int>) {
    || MeetsUnknown(create, spells, netIDs)
    || forall j :: 0 <= j < Reach(create, spells, netIDs) ==> !Suits(dist, create, spells[j], netIDs)
  }

  /** Of two casts equally far away in time the nearer one is used, and of two equally far away in space the one closer
      in time. */
  lemma NearerIsCheaper(dist: Distance, create: Creation, spells: seq<Cast>, netIDs: map<int, int>, i: nat, j: nat)
    requires IsFirstMatch(dist, create, spells, netIDs, i)
    requires j < Reach(create, spells, netIDs) && Suits(dist, create, spells[j], netIDs)
    ensures spells[i].seconds == spells[j].seconds ==>
              dist(spells[i].positionEnd, create.position) <= dist(spells[j].positionEnd, create.position)
    ensures dist(spells[i].positionEnd, create.position) == dist(spells[j].positionEnd, create.position) ==>
              var apart, otherApart := spells[i].seconds - create.seconds, spells[j].seconds - create.seconds;
              otherApart <= apart <= -otherApart || -otherApart <= apart <= otherApart
  {
  }

  method FirstMatching(dist: Distance, create: Creation, spells: seq<Cast>, netIDs: map<int, int>)
    returns (r: Result<nat>)
    ensures r.Success? ==> IsFirstMatch(dist, create, spells, netIDs, r.value)
    ensures r.Failure? <==> HasNoMatch(dist, create, spells, netIDs)
  {
    var minIndex := -1;
    var bestCost := BEST_COST;
    var i := 0;
    while i < |spells|
      invariant 0 <= i <= |spells|
      invariant forall j :: 0 <= j < i ==> Passes(create, spells[j], netIDs)
      invariant minIndex == -1 ==> bestCost == BEST_COST
      invariant minIndex != -1 ==> 0 <= minIndex < i && Suits(dist, create, spells[minIndex], netIDs)
      invariant minIndex != -1 ==> bestCost == Cost(dist, create, spells[minIndex])
      invariant forall j :: 0 <= j < i && Suits(dist, create, spells[j], netIDs) ==>
                              bestCost <= Cost(dist, create, spells[j])
      invariant forall j :: 0 <= j < minIndex && Suits(dist, create, spells[j], netIDs) ==>
                              bestCost < Cost(dist, create, spells[j])
      invariant minIndex == -1 ==> forall j :: 0 <= j < i ==> !Suits(dist, create, spells[j], netIDs)
    {
      var spell := spells[i];
      if spell.networkID !in netIDs {
        return Failure("unknown network id");
      }
      if TeamID(netIDs[spell.networkID]) != create.teamID {
        i := i + 1;
        continue;
      }
      var secondsDiff := Apart(create, spell);
      if secondsDiff > 30.0 {
        break;
      }
      var cost := dist(spell.positionEnd, create.position) + secondsDiff * 100.0;
      if cost < bestCost {
        bestCost, minIndex := cost, i;
      }
      i := i + 1;
    }
    assert i == Reach(create, spells, netIDs);
    if minIndex < 0 {
      return Failure("no spell_cast event found");
    }
    return Success(minIndex);
  }

  lemma FirstMatchIsUnique(dist: Distance, create: Creation, spells: seq<Cast>, netIDs: map<int, int>, i: nat, j: nat)
    requires IsFirstMatch(dist, create, spells, netIDs, i) && IsFirstMatch(dist, create, spells, netIDs, j)
    ensures i == j
  {
  }

  // ---------- The pairing ----------

  function Swapped(spells: seq<Cast>, i: nat): seq<Cast>
    requires i < |spells|
  {
    spells[0 := spells[i]][i := spells[0]]
  }

  /** Ward by ward, the first match among the casts not used so far; the cast that was in front takes
      the place of the one used. */
  ghost predicate Pairs(dist: Distance, creations: seq<Creation>, spells: seq<Cast>, netIDs: map<int, int>,
                        used: seq<Cast>)
    decreases |creations|, 1
  {
    if creations == [] then used == spells == []
    else
      && used != []
      && exists i :: 0 <= i < |spells| && PairsFirst(dist, creations, spells, netIDs, used, i)
  }

  ghost predicate PairsFirst(
    dist: Distance, creations: seq<Creation>, spells: seq<Cast>, netIDs: map<int, int>, used: seq<Cast>, i: nat)
    requires creations != [] && used != [] && i < |spells|
    decreases |creations|, 0
  {
    && IsFirstMatch(dist, creations[0], spells, netIDs, i)
    && used[0] == spells[i]
    && Pairs(dist, creations[1..], Swapped(spells, i)[1..], netIDs, used[1..])
  }

  lemma FirstOfPairs(dist: Distance, creations: seq<Creation>, spells: seq<Cast>, netIDs: map<int, int>,
                     used: seq<Cast>)
    returns (i: nat)
    requires creations != [] && Pairs(dist, creations, spells, netIDs, used)
    ensures used != [] && i < |spells| && PairsFirst(dist, creations, spells, netIDs, used, i)
  {
    i :| 0 <= i < |spells| && PairsFirst(dist, creations, spells, netIDs, used, i);
  }

  lemma SwapKeepsCasts(spells: seq<Cast>, i: nat)
    requires i < |spells|
    ensures multiset(Swapped(spells, i)) == multiset(spells)
    ensures Swapped(spells, i) == [spells[i]] + Swapped(spells, i)[1..]
  {
    assert multiset(spells[0 := spells[i]]) == multiset(spells) - multiset{spells[0]} + multiset{spells[i]};
  }

  /** Every cast is used exactly once, and each ward gets a suitable cast of its own team. */
  lemma {:induction false} PairingIsSound(
    dist: Distance, creations: seq<Creation>, spells: seq<Cast>, netIDs: map<int, int>, used: seq<Cast>)
    requires Pairs(dist, creations, spells, netIDs, used)
    ensures |used| == |creations| && multiset(used) == multiset(spells)
    ensures forall k :: 0 <= k < |used| ==> Suits(dist, creations[k], used[k], netIDs)
    decreases |creations|
  {
    if creations != [] {
      var i := FirstOfPairs(dist, creations, spells, netIDs, used);
      PairingIsSound(dist, creations[1..], Swapped(spells, i)[1..], netIDs, used[1..]);
      SwapKeepsCasts(spells, i);
      assert used == [used[0]] + used[1..];
      assert multiset(Swapped(spells, i)) == multiset{spells[i]} + multiset(Swapped(spells, i)[1..]) by {
        assert Swapped(spells, i) == [spells[i]] + Swapped(spells, i)[1..];
      }
      forall k | 0 <= k < |used| ensures Suits(dist, creations[k], used[k], netIDs) {
        assert k > 0 ==> creations[k] == creations[1..][k - 1] && used[k] == used[1..][k - 1];
      }
    }
  }

  /** There is only one way to pair. */
  lemma {:induction false} PairingIsUnique(
    dist: Distance, creations: seq<Creation>, spells: seq<Cast>, netIDs: map<int, int>, used: seq<Cast>,
    other: seq<Cast>)
    requires Pairs(dist, creations, spells, netIDs, used) && Pairs(dist, creations, spells, netIDs, other)
    ensures used == other
    decreases |creations|
  {
    if creations != [] {
      var i := FirstOfPairs(dist, creations, spells, netIDs, used);
      var j := FirstOfPairs(dist, creations, spells, netIDs, other);
      FirstMatchIsUnique(dist, creations[0], spells, netIDs, i, j);
      PairingIsUnique(dist, creations[1..], Swapped(spells, i)[1..], netIDs, used[1..], other[1..]);
      assert used == [used[0]] + used[1..] && other == [other[0]] + other[1..];
    }
  }

  /** The event for a ward and the cast it was paired with. A ward placed at the very moment another
      one dies must come first, so its time is put forward a little. */
  function EventFor(create: Creation, spell: Cast, netIDs: map<int, int>): WardPlaced
    requires IsKnown(spell, netIDs)
  {
    WardPlaced(
      netIDs[spell.networkID], create.position, spell.itemType, create.networkID, create.teamID, create.seconds - 0.01)
  }

  /** Pairing everything comes down to what was used for the first `k` wards and to pairing the rest. */
  ghost predicate Resumes(
    dist: Distance, creations: seq<Creation>, spells: seq<Cast>, netIDs: map<int, int>, k: nat, now: seq<Cast>,
    used: seq<Cast>)
  {
    Pairs(dist, creations, spells, netIDs, used) <==>
    k <= |creations| && k <= |now| && k <= |used| && used[..k] == now[..k]
    && Pairs(dist, creations[k..], now[k..], netIDs, used[k..])
  }

  ghost predicate ResumesAlways(
    dist: Distance, creations: seq<Creation>, spells: seq<Cast>, netIDs: map<int, int>, k: nat, now: seq<Cast>)
  {
    forall used :: Resumes(dist, creations, spells, netIDs, k, now, used)
  }

  lemma AllResume(dist: Distance, creations: seq<Creation>, spells: seq<Cast>, netIDs: map<int, int>)
    ensures ResumesAlways(dist, creations, spells, netIDs, 0, spells)
  {
    forall used ensures Resumes(dist, creations, spells, netIDs, 0, spells, used) {
      assert creations[0..] == creations && spells[0..] == spells && used[0..] == used;
    }
  }

  lemma AllResumeAfterSwap(
    dist: Distance, creations: seq<Creation>, spells: seq<Cast>, netIDs: map<int, int>, k: nat, now: seq<Cast>, i: nat)
    requires k < |creations| && k + i < |now|
    requires ResumesAlways(dist, creations, spells, netIDs, k, now)
    requires IsFirstMatch(dist, creations[k], now[k..], netIDs, i)
    ensures ResumesAlways(dist, creations, spells, netIDs, k + 1, Exchanged(now, k, i))
  {
    hide Resumes;
    var next := Exchanged(now, k, i);
    var n := k + 1;
    forall used ensures Resumes(dist, creations, spells, netIDs, n, next, used) {
      ResumesAfterSwap(dist, creations, spells, netIDs, k, now, i, used);
    }
  }

  lemma PairingEnds(dist: Distance, creations: seq<Creation>, spells: seq<Cast>, netIDs: map<int, int>, now: seq<Cast>)
    requires |now| == |creations| && ResumesAlways(dist, creations, spells, netIDs, |creations|, now)
    ensures Pairs(dist, creations, spells, netIDs, now)
  {
    assert Resumes(dist, creations, spells, netIDs, |creations|, now, now);
  }

  lemma NothingLeft(dist: Distance, creations: seq<Creation>, spells: seq<Cast>, netIDs: map<int, int>, k: nat,
                    now: seq<Cast>)
    requires k < |creations| && k <= |now| && ResumesAlways(dist, creations, spells, netIDs, k, now)
    requires HasNoMatch(dist, creations[k], now[k..], netIDs)
    ensures forall used :: !Pairs(dist, creations, spells, netIDs, used)
  {
    forall used ensures !Pairs(dist, creations, spells, netIDs, used) {
      NoMatchNoPairing(dist, creations, spells, netIDs, k, now, used);
    }
  }

  lemma PairsUnfolds(dist: Distance, creations: seq<Creation>, spells: seq<Cast>, netIDs: map<int, int>,
                     used: seq<Cast>, i: nat)
    requires creations != [] && i < |spells| && IsFirstMatch(dist, creations[0], spells, netIDs, i)
    ensures Pairs(dist, creations, spells, netIDs, used) <==>
            used != [] && used[0] == spells[i]
            && Pairs(dist, creations[1..], Swapped(spells, i)[1..], netIDs, used[1..])
  {
    if used != [] && used[0] == spells[i] && Pairs(dist, creations[1..], Swapped(spells, i)[1..], netIDs, used[1..]) {
      assert PairsFirst(dist, creations, spells, netIDs, used, i);
    }
    if Pairs(dist, creations, spells, netIDs, used) {
      var j := FirstOfPairs(dist, creations, spells, netIDs, used);
      FirstMatchIsUnique(dist, creations[0], spells, netIDs, i, j);
    }
  }

  lemma ResumesAfterSwap(
    dist: Distance, creations: seq<Creation>, spells: seq<Cast>, netIDs: map<int, int>, k: nat, now: seq<Cast>,
    i: nat, used: seq<Cast>)
    requires k < |creations| && k + i < |now|
    requires Resumes(dist, creations, spells, netIDs, k, now, used)
    requires IsFirstMatch(dist, creations[k], now[k..], netIDs, i)
    ensures Resumes(dist, creations, spells, netIDs, k + 1, Exchanged(now, k, i), used)
  {
    hide Pairs, IsFirstMatch;
    var rest, next := now[k..], Exchanged(now, k, i);
    assert next[k + 1..] == Swapped(rest, i)[1..] && next[..k + 1] == now[..k] + [rest[i]];
    assert creations[k..][1..] == creations[k + 1..];
    if k <= |used| {
      PairsUnfolds(dist, creations[k..], rest, netIDs, used[k..], i);
    }
    if k < |used| {
      assert used[k..][1..] == used[k + 1..] && used[..k + 1] == used[..k] + [used[k]];
    }
  }

  lemma NoMatchNoPairing(
    dist: Distance, creations: seq<Creation>, spells: seq<Cast>, netIDs: map<int, int>, k: nat, now: seq<Cast>,
    used: seq<Cast>)
    requires k < |creations| && k <= |now| && Resumes(dist, creations, spells, netIDs, k, now, used)
    requires HasNoMatch(dist, creations[k], now[k..], netIDs)
    ensures !Pairs(dist, creations, spells, netIDs, used)
  {
    if k <= |used| {
      NothingPairs(dist, creations[k..], now[k..], netIDs, used[k..]);
    }
  }

  lemma NothingPairs(dist: Distance, creations: seq<Creation>, spells: seq<Cast>, netIDs: map<int, int>,
                     used: seq<Cast>)
    requires creations != [] && HasNoMatch(dist, creations[0], spells, netIDs)
    ensures !Pairs(dist, creations, spells, netIDs, used)
  {
    if used != [] {
      forall i | 0 <= i < |spells| ensures !PairsFirst(dist, creations, spells, netIDs, used, i) {
      }
    }
  }

  lemma NumbersMustAgree(dist: Distance, creations: seq<Creation>, spells: seq<Cast>, netIDs: map<int, int>,
                         used: seq<Cast>)
    requires |spells| != |creations|
    ensures !Pairs(dist, creations, spells, netIDs, used)
  {
    if Pairs(dist, creations, spells, netIDs, used) {
      PairingIsSound(dist, creations, spells, netIDs, used);
      MultisetSize(used);
      MultisetSize(spells);
    }
  }

  lemma MultisetSize(s: seq<Cast>)
    ensures |multiset(s)| == |s|
  {
  }

  method Swap(spells: array<Cast>, k: nat, i: nat)
    requires k < spells.Length && i < spells.Length
    modifies spells
    ensures spells[..] == old(spells[..])[k := old(spells[i])][i := old(spells[k])]
    ensures multiset(spells[..]) == multiset(old(spells[..]))
  {
    spells[k], spells[i] := spells[i], spells[k];
  }

  /** The events so far: each ward with a cast that suits it. */
  ghost predicate Placed(dist: Distance, creations: seq<Creation>, now: seq<Cast>, netIDs: map<int, int>,
                         res: seq<WardPlaced>) {
    && |res| <= |creations| && |res| <= |now|
    && forall k :: 0 <= k < |res| ==>
                     Suits(dist, creations[k], now[k], netIDs) && res[k] == EventFor(creations[k], now[k], netIDs)
  }

  /** Each event tells of one ward, where and when it appeared, give or take a moment, and of a player of its team. */
  lemma EventsTellOfWards(dist: Distance, creations: seq<Creation>, now: seq<Cast>, netIDs: map<int, int>,
                          res: seq<WardPlaced>, k: nat)
    requires Placed(dist, creations, now, netIDs, res) && k < |res|
    ensures res[k].wardID == creations[k].networkID && res[k].position == creations[k].position
    ensures creations[k].seconds - 0.01 <= res[k].seconds < creations[k].seconds
    ensures res[k].teamID == TeamID(res[k].participantID) == creations[k].teamID && res[k].itemType == now[k].itemType
  {
  }

  /** The casts after the one in front has changed places with the one used. */
  function Exchanged(now: seq<Cast>, k: nat, i: nat): seq<Cast>
    requires k + i < |now|
  {
    now[k := now[k + i]][k + i := now[k]]
  }

  lemma PlacesNext(
    dist: Distance, creations: seq<Creation>, now: seq<Cast>, netIDs: map<int, int>, res: seq<WardPlaced>, i: nat)
    requires Placed(dist, creations, now, netIDs, res) && |res| < |creations| && |res| + i < |now|
    requires IsFirstMatch(dist, creations[|res|], now[|res|..], netIDs, i)
    ensures var next := Exchanged(now, |res|, i);
            && IsKnown(next[|res|], netIDs)
            && Placed(dist, creations, next, netIDs, res + [EventFor(creations[|res|], next[|res|], netIDs)])
  {
    hide Reach, Cost;
    var k := |res|;
    var next := Exchanged(now, k, i);
    assert next[k] == now[k..][i];
    forall j | 0 <= j < k
      ensures next[j] == now[j]
    {
    }
  }

  /** Finds a cast for the `k`th ward among those not used so far, and brings it to the front of them. */
  method TakeFirst(dist: Distance, create: Creation, spells: array<Cast>, k: nat, netIDs: map<int, int>)
    returns (found: Result<nat>)
    requires k < spells.Length
    modifies spells
    ensures found.Failure? ==> spells[..] == old(spells[..]) && HasNoMatch(dist, create, old(spells[..])[k..], netIDs)
    ensures found.Success? ==> IsFirstMatch(dist, create, old(spells[..])[k..], netIDs, found.value)
    ensures found.Success? ==>
              k + found.value < spells.Length && spells[..] == Exchanged(old(spells[..]), k, found.value)
    ensures multiset(spells[..]) == multiset(old(spells[..]))
  {
    hide HasNoMatch, Cost, Suits;
    assert spells[k..] == spells[..][k..];
    found := FirstMatching(dist, create, spells[k..], netIDs);
    if found.Success? && found.value > 0 {
      Swap(spells, k, k + found.value);
    }
  }

  lemma NobodyPairs(dist: Distance, creations: seq<Creation>, spells: seq<Cast>, netIDs: map<int, int>)
    requires |spells| != |creations|
    ensures forall used :: !Pairs(dist, creations, spells, netIDs, used)
  {
    hide Pairs;
    forall used
      ensures !Pairs(dist, creations, spells, netIDs, used)
    {
      NumbersMustAgree(dist, creations, spells, netIDs, used);
    }
  }

  /** Pairs the wards in place. On success the array holds, ward by ward, the cast that was used: a
      permutation of what it held before. */
  method PlaceWards(dist: Distance, creations: seq<Creation>, spells: array<Cast>, netIDs: map<int, int>)
    returns (r: Result<seq<WardPlaced>>)
    modifies spells
    ensures multiset(spells[..]) == multiset(old(spells[..]))
    ensures r.Success? ==> Pairs(dist, creations, old(spells[..]), netIDs, spells[..])
    ensures r.Success? ==>
              |r.value| == |creations| == spells.Length && Placed(dist, creations, spells[..], netIDs, r.value)
    ensures r.Failure? ==> forall used :: !Pairs(dist, creations, old(spells[..]), netIDs, used)
  {
    hide Pairs, ResumesAlways, HasNoMatch, IsFirstMatch, Suits, EventFor, Placed, Exchanged;
    ghost var before := spells[..];
    if spells.Length != |creations| {
      NobodyPairs(dist, creations, before, netIDs);
      return Failure("casts and wards differ in number");
    }
    var res: seq<WardPlaced> := [];
    AllResume(dist, creations, before, netIDs);
    NothingPlaced(dist, creations, before, netIDs);
    for k := 0 to |creations|
      invariant |res| == k && multiset(spells[..]) == multiset(before)
      invariant Placed(dist, creations, spells[..], netIDs, res)
      invariant ResumesAlways(dist, creations, before, netIDs, k, spells[..])
    {
      ghost var now := spells[..];
      var found := TakeFirst(dist, creations[k], spells, k, netIDs);
      if found.Failure? {
        NothingLeft(dist, creations, before, netIDs, k, now);
        return Failure(found.error);
      }
      AllResumeAfterSwap(dist, creations, before, netIDs, k, now, found.value);
      PlacesNext(dist, creations, now, netIDs, res, found.value);
      assert spells[k] == spells[..][k];
      res := res + [EventFor(creations[k], spells[k], netIDs)];
    }
    PairingEnds(dist, creations, before, netIDs, spells[..]);
    return Success(res);
  }

  lemma NothingPlaced(dist: Distance, creations: seq<Creation>, now: seq<Cast>, netIDs: map<int, int>)
    ensures Placed(dist, creations, now, netIDs, [])
  {
  }
}
