/** Team composition (lolstats-master/ingest/team_comp.go): the strongest attributes of each side,
    picked while going through maps whose order is arbitrary. */
module TeamComp {
  import opened Basics
  import opened MapOrder
  import opened Teams
  import opened Wrappers

  type SideMap = map<string, real>

  /** The player's own team, the other team, or the player alone. */
  datatype Side = Us | Them | Me

  // ---------- Names in alphabetical order ----------

  lemma {:induction false} BeforeIsTotal(a: string, b: string)
    ensures a == b || Before(a, b) || Before(b, a)
    ensures Before(a, b) ==> a != b && !Before(b, a)
  {
    if a != "" && b != "" {
      BeforeIsTotal(a[1..], b[1..]);
      if a[0] == b[0] && a[1..] == b[1..] {
        assert a == [a[0]] + a[1..] && b == [b[0]] + b[1..];
      }
    }
  }

  lemma {:induction false} BeforeIsTransitive(a: string, b: string, c: string)
    requires Before(a, b) && Before(b, c)
    ensures Before(a, c)
  {
    if a != "" && a[0] == b[0] && b[0] == c[0] {
      BeforeIsTransitive(a[1..], b[1..], c[1..]);
    }
  }

  // ---------- The best three ----------

  /** A higher value wins; of equal values, the name that comes first. */
  predicate Beats(a: string, x: real, b: string, y: real) {
    x > y || (x == y && Before(a, b))
  }

  lemma BeatsIsTotal(a: string, x: real, b: string, y: real)
    ensures a == b || Beats(a, x, b, y) || Beats(b, y, a, x)
    ensures !(Beats(a, x, b, y) && Beats(b, y, a, x))
  {
    BeforeIsTotal(a, b);
  }

  lemma BeatsIsTransitive(a: string, x: real, b: string, y: real, c: string, z: real)
    requires Beats(a, x, b, y) && Beats(b, y, c, z)
    ensures Beats(a, x, c, z)
  {
    if x == y && y == z {
      BeforeIsTransitive(a, b, c);
    }
  }

  function Fewer(a: nat, b: nat): nat {
    if a < b then a else b
  }

  /** The best three attributes, or all of them if there are fewer. */
  ghost predicate IsTopThree(chosen: SideMap, all: SideMap) {
    && (forall a <- chosen :: a in all && all[a] == chosen[a])
    && |chosen| == Fewer(3, |all|)
    && forall a <- chosen :: forall b <- all :: b !in chosen ==> Beats(a, all[a], b, all[b])
  }

  /** No attribute that was left out is larger than one that was chosen, and of equal ones the first names were. */
  lemma TopThreeAreLargest(chosen: SideMap, all: SideMap, a: string, b: string)
    requires IsTopThree(chosen, all) && a in chosen && b in all && b !in chosen
    ensures all[b] <= all[a] && (all[a] == all[b] ==> Before(a, b))
  {
  }

  /** There is only one choice of the best three, so no order of iteration can lead to another. */
  lemma TopThreeIsUnique(chosen: SideMap, other: SideMap, all: SideMap)
    requires IsTopThree(chosen, all) && IsTopThree(other, all)
    ensures chosen == other
  {
    if chosen.Keys != other.Keys {
      var a := SomeMissing(chosen.Keys, other.Keys);
      var b := SomeMissing(other.Keys, chosen.Keys);
      BeatsIsTotal(a, all[a], b, all[b]);
    }
  }

  lemma SomeMissing<T>(s: set<T>, t: set<T>) returns (x: T)
    requires |s| == |t| && s != t
    ensures x in s && x !in t
  {
    if s <= t {
      CardinalityOfProperSubset(s, t);
    }
    x :| x in s && x !in t;
  }

  lemma CardinalityOfProperSubset<T>(s: set<T>, t: set<T>)
    requires s < t
    ensures |s| < |t|
  {
    assert t == s + (t - s) && |t| == |s| + |t - s|;
    assert t - s != {};
  }

  /** The entry that every other entry beats. */
  ghost predicate IsMin(m: SideMap, minKey: string) {
    minKey in m && forall a <- m :: a != minKey ==> Beats(a, m[a], minKey, m[minKey])
  }

  method MinVal(m: SideMap) returns (minKey: string, minVal: real)
    requires m != map[] && "" !in m
    ensures IsMin(m, minKey) && minVal == m[minKey]
  {
    minKey, minVal := "", 0.0;
    var keys := m.Keys;
    assert keys != {};
    while keys != {}
      invariant keys <= m.Keys
      invariant minKey == "" ==> keys == m.Keys
      invariant minKey != "" ==> minKey in m && minKey !in keys && minVal == m[minKey]
      invariant minKey != "" ==> forall a <- m :: a !in keys && a != minKey ==> Beats(a, m[a], minKey, minVal)
      decreases |keys|
    {
      var key := Next(keys);
      ghost var done := m.Keys - keys;
      keys := keys - {key};
      if minKey != "" {
        BeatsIsTotal(key, m[key], minKey, minVal);
        if Beats(minKey, minVal, key, m[key]) {
          forall a | a in done && a != minKey ensures Beats(a, m[a], key, m[key]) {
            BeatsIsTransitive(a, m[a], minKey, minVal, key, m[key]);
          }
        }
      }
      if minKey == "" || m[key] < minVal || (m[key] == minVal && Before(minKey, key)) {
        minKey, minVal := key, m[key];
      }
    }
  }

  lemma FewAreAll(teamKeys: SideMap, all: SideMap)
    requires IsTopThree(teamKeys, all) && |teamKeys| < 3
    ensures teamKeys == all
  {
    if teamKeys.Keys != all.Keys {
      CardinalityOfProperSubset(teamKeys.Keys, all.Keys);
    }
  }

  lemma WeakestIsReplaced(teamKeys: SideMap, all: SideMap, attr: string, val: real, minKey: string)
    requires IsTopThree(teamKeys, all) && |teamKeys| >= 3 && attr !in all
    requires IsMin(teamKeys, minKey) && Beats(attr, val, minKey, all[minKey])
    ensures IsTopThree((teamKeys - {minKey})[attr := val], all[attr := val])
  {
    var r, more := (teamKeys - {minKey})[attr := val], all[attr := val];
    forall a, b | a in r && b in more && b !in r ensures Beats(a, more[a], b, more[b]) {
      if a == attr && b != minKey {
        BeatsIsTransitive(attr, val, minKey, all[minKey], b, all[b]);
      }
    }
  }

  lemma WeakestIsKept(teamKeys: SideMap, all: SideMap, attr: string, val: real, minKey: string)
    requires IsTopThree(teamKeys, all) && |teamKeys| >= 3 && attr !in all
    requires IsMin(teamKeys, minKey) && Beats(minKey, all[minKey], attr, val)
    ensures IsTopThree(teamKeys, all[attr := val])
  {
    forall a | a in teamKeys ensures Beats(a, all[a], attr, val) {
      if a != minKey {
        BeatsIsTransitive(a, all[a], minKey, all[minKey], attr, val);
      }
    }
  }

  /** One more attribute: it enters while there are fewer than three, or in place of the weakest. */
  method Consider(teamKeys: SideMap, ghost all: SideMap, attr: string, val: real) returns (r: SideMap)
    requires IsTopThree(teamKeys, all) && attr !in all && "" !in all
    ensures IsTopThree(r, all[attr := val])
  {
    r := teamKeys;
    if |teamKeys| < 3 {
      FewAreAll(teamKeys, all);
      r := r[attr := val];
    } else {
      var minKey, minVal := MinVal(teamKeys);
      BeatsIsTotal(attr, val, minKey, minVal);
      if Beats(attr, val, minKey, minVal) {
        WeakestIsReplaced(teamKeys, all, attr, val, minKey);
      } else {
        WeakestIsKept(teamKeys, all, attr, val, minKey);
      }
      if minVal <= val {
        if minVal < val || Before(attr, minKey) {
          r := r - {minKey};
          r := r[attr := val];
        }
      }
    }
  }

  // ---------- The composition of two teams ----------

  type Values = map<Side, real>

  type Attributes = map<string, Values>

  function ValueOf(attributes: Attributes, name: string, side: Side): real {
    if name in attributes && side in attributes[name] then attributes[name][side] else 0.0
  }

  /** One side's attributes. */
  function SideOf(attributes: Attributes, side: Side): SideMap {
    map name | name in attributes && side in attributes[name] :: attributes[name][side]
  }

  /** Every attribute has a name. */
  predicate WellFormed(attributes: Attributes) {
    "" !in attributes
  }

  /** Which sides a participant's strengths count for. */
  predicate CountsFor(me: int, player: int, side: Side) {
    (side == if TeamID(me) == TeamID(player) then Us else Them) || (me == player && side == Me)
  }

  /** One attribute's values with one side's value raised. */
  function Raised(sides: Values, side: Side, val: real): Values {
    sides[side := (if side in sides then sides[side] else 0.0) + val]
  }

  /** Teammates strengthen the own side, all others the other one, and the player himself his own part as well. */
  ghost predicate SideGains(before: Attributes, after: Attributes, me: int, player: int, name: string, more: real) {
    var friend := TeamID(player) == TeamID(me);
    && ValueOf(after, name, Us) == ValueOf(before, name, Us) + (if friend then more else 0.0)
    && ValueOf(after, name, Them) == ValueOf(before, name, Them) + (if friend then 0.0 else more)
    && ValueOf(after, name, Me) == ValueOf(before, name, Me) + (if player == me then more else 0.0)
  }

  lemma GainsOnItsSide(before: Attributes, after: Attributes, me: int, player: int, name: string, more: real)
    requires forall side ::
               ValueOf(after, name, side) == ValueOf(before, name, side)
               + (if CountsFor(me, player, side) then more else 0.0)
    ensures SideGains(before, after, me, player, name, more)
  {
    hide ValueOf, TeamID;
  }

  lemma AllGain(before: Attributes, after: Attributes, me: int, player: int, champ: map<string, real>)
    requires forall name, side ::
               ValueOf(after, name, side) == ValueOf(before, name, side)
               + (if name in champ && CountsFor(me, player, side) then champ[name] else 0.0)
    ensures forall name <- champ :: SideGains(before, after, me, player, name, champ[name])
  {
    hide ValueOf, SideGains, CountsFor;
    forall name | name in champ
      ensures SideGains(before, after, me, player, name, champ[name])
    {
      GainsOnItsSide(before, after, me, player, name, champ[name]);
    }
  }

  class TeamComp {
    var attributes: Attributes
    var keyAttributes: map<Side, SideMap>
    var keyContributionPct: Option<real>

    constructor ()
      ensures attributes == map[] && keyAttributes == map[]
    {
      attributes, keyAttributes, keyContributionPct := map[], map[], None;
    }

    /** Adds a participant's champion to the sums of its sides; an unknown champion changes nothing. */
    method AddParticipant(me: int, player: int, champAttributes: Option<map<string, real>>)
      requires WellFormed(attributes) && (champAttributes.Some? ==> "" !in champAttributes.value)
      modifies `attributes
      ensures WellFormed(attributes)
      ensures champAttributes.None? ==> attributes == old(attributes)
      ensures champAttributes.Some? ==> forall name, side ::
                  ValueOf(attributes, name, side) == ValueOf(old(attributes), name, side)
                  + (if name in champAttributes.value && CountsFor(me, player, side) then champAttributes.value[name]
                     else 0.0)
      ensures champAttributes.Some? ==> forall name <- champAttributes.value ::
                  SideGains(old(attributes), attributes, me, player, name, champAttributes.value[name])
    {
      hide SideGains, TeamID;
      if champAttributes.None? {
        return;
      }
      var champ := champAttributes.value;
      var names := champ.Keys;
      while names != {}
        invariant names <= champ.Keys
        invariant WellFormed(attributes)
        invariant forall name, side ::
                    ValueOf(attributes, name, side) == ValueOf(old(attributes), name, side)
                    + (if name in champ && name !in names && CountsFor(me, player, side) then champ[name] else 0.0)
        decreases |names|
      {
        var name := Next(names);
        names := names - {name};
        var sides := if name in attributes then attributes[name] else map[];
        var sideKey := if TeamID(me) == TeamID(player) then Us else Them;
        sides := Raised(sides, sideKey, champ[name]);
        if me == player {
          sides := Raised(sides, Me, champ[name]);
        }
        attributes := attributes[name := sides];
      }
      AllGain(old(attributes), attributes, me, player, champ);
    }

    /** The best three attributes of each side, the player's own part in those of his side, and how much
        of their sum is his. */
    method ComputeKeyAttributes()
      requires WellFormed(attributes)
      modifies `keyAttributes, `keyContributionPct
      ensures keyAttributes.Keys == {Us, Them, Me}
      ensures IsTopThree(keyAttributes[Us], SideOf(attributes, Us))
      ensures IsTopThree(keyAttributes[Them], SideOf(attributes, Them))
      ensures keyAttributes[Me] == Shares(keyAttributes[Us], attributes)
      ensures keyContributionPct == Percentage(Total(keyAttributes[Me]), Total(keyAttributes[Us]))
      ensures OwnPartFits(attributes) && keyContributionPct.Some? ==> 0.0 <= keyContributionPct.value <= 100.0
    {
      hide IsTopThree, SideOf;
      var us, them := TopThrees(attributes);
      var mine, myContribution, teamTotal := OwnParts(us);
      keyAttributes := map[Us := us, Them := them, Me := mine];
      keyContributionPct := Percentage(myContribution, teamTotal);
      if OwnPartFits(attributes) {
        OwnPartIsSmaller(us, attributes);
      }
    }

    /** The player's own part in each key attribute, and the sums of both. */
    method OwnParts(us: SideMap) returns (mine: SideMap, myContribution: real, teamTotal: real)
      ensures mine == Shares(us, attributes) && myContribution == Total(mine) && teamTotal == Total(us)
    {
      hide Part, Total, ValueOf;
      mine, myContribution, teamTotal := map[], 0.0, 0.0;
      ghost var own := Shares(us, attributes);
      var left := us.Keys;
      assert own.Keys == us.Keys;
      TotalIsPart(own);
      TotalIsPart(us);
      while left != {}
        invariant left <= us.Keys && mine.Keys == us.Keys - left
        invariant forall name <- mine :: mine[name] == own[name]
        invariant myContribution + Part(own, left) == Total(own) && teamTotal + Part(us, left) == Total(us)
        decreases |left|
      {
        var attr := Next(left);
        PartTakes(own, left, attr);
        PartTakes(us, left, attr);
        left := left - {attr};
        var part := ValueOf(attributes, attr, Me);
        mine := mine[attr := part];
        myContribution := myContribution + part;
        teamTotal := teamTotal + us[attr];
      }
      TotalIsPart(own);
      assert mine == own;
    }
  }

  function Shares(us: SideMap, attributes: Attributes): SideMap {
    map name <- us :: ValueOf(attributes, name, Me)
  }

  ghost function EntryOf(m: SideMap): string -> real {
    name => if name in m then m[name] else 0.0
  }

  /** The sum over some of the attributes. */
  ghost function Part(m: SideMap, keys: set<string>): real {
    RealSumOver(keys, EntryOf(m))
  }

  ghost function Total(m: SideMap): real {
    Part(m, m.Keys)
  }

  lemma TotalIsPart(m: SideMap)
    ensures Part(m, m.Keys) == Total(m) && Part(m, {}) == 0.0
  {
  }

  lemma PartTakes(m: SideMap, keys: set<string>, name: string)
    requires name in keys && keys <= m.Keys
    ensures Part(m, keys) == m[name] + Part(m, keys - {name})
  {
    RealSumOverTakes(keys, EntryOf(m), name);
  }

  /** Undefined when there is nothing to divide by. */
  function Percentage(part: real, whole: real): Option<real> {
    if whole == 0.0 then None else Some(100.0 * part / whole)
  }

  /** The player's own part of an attribute is a part of his side's. */
  ghost predicate OwnPartFits(attributes: Attributes) {
    forall name :: 0.0 <= ValueOf(attributes, name, Me) <= ValueOf(attributes, name, Us)
  }

  /** One participant after the other: since the player is on his own side, his part stays a part of it. */
  lemma OwnPartStays(before: Attributes, after: Attributes, me: int, player: int, champ: map<string, real>)
    requires OwnPartFits(before) && forall name <- champ :: 0.0 <= champ[name]
    requires forall name, side ::
               ValueOf(after, name, side) == ValueOf(before, name, side)
               + (if name in champ && CountsFor(me, player, side) then champ[name] else 0.0)
    ensures OwnPartFits(after)
  {
    forall name
      ensures 0.0 <= ValueOf(after, name, Me) <= ValueOf(after, name, Us)
    {
      assert 0.0 <= ValueOf(before, name, Me) <= ValueOf(before, name, Us);
    }
  }

  lemma {:induction false} SmallerSum(keys: set<string>, f: string -> real, g: string -> real)
    requires forall name <- keys :: 0.0 <= f(name) <= g(name)
    ensures 0.0 <= RealSumOver(keys, f) <= RealSumOver(keys, g)
    decreases |keys|
  {
    if keys != {} {
      var name :| name in keys;
      RealSumOverTakes(keys, f, name);
      RealSumOverTakes(keys, g, name);
      SmallerSum(keys - {name}, f, g);
    }
  }

  /** Then his share lies between nothing and everything. */
  lemma OwnPartIsSmaller(us: SideMap, attributes: Attributes)
    requires OwnPartFits(attributes) && IsTopThree(us, SideOf(attributes, Us))
    ensures 0.0 <= Total(Shares(us, attributes)) <= Total(us)
    ensures forall share | Percentage(Total(Shares(us, attributes)), Total(us)) == Some(share) :: 0.0 <= share <= 100.0
  {
    var mine := Shares(us, attributes);
    forall name | name in us
      ensures 0.0 <= EntryOf(mine)(name) <= EntryOf(us)(name)
    {
      assert us[name] == ValueOf(attributes, name, Us);
    }
    SmallerSum(us.Keys, EntryOf(mine), EntryOf(us));
    assert mine.Keys == us.Keys;
    if Total(us) > 0.0 {
      AtMostWhole(Total(mine), Total(us));
    }
  }

  lemma AtMostWhole(part: real, whole: real)
    requires 0.0 <= part <= whole && 0.0 < whole
    ensures 0.0 <= 100.0 * part / whole <= 100.0
  {
  }

  method TopThrees(attributes: Attributes) returns (us: SideMap, them: SideMap)
    requires WellFormed(attributes)
    ensures IsTopThree(us, SideOf(attributes, Us)) && IsTopThree(them, SideOf(attributes, Them))
  {
    hide Extended;
    us, them := map[], map[];
    var names := attributes.Keys;
    ghost var allUs: SideMap, allThem: SideMap := map[], map[];
    while names != {}
      invariant names <= attributes.Keys
      invariant allUs == SideOf(attributes - names, Us) && allThem == SideOf(attributes - names, Them)
      invariant IsTopThree(us, allUs) && IsTopThree(them, allThem)
      decreases |names|
    {
      var attr := Next(names);
      SideExtends(attributes, names, attr, Us);
      SideExtends(attributes, names, attr, Them);
      names := names - {attr};
      us, them := ConsiderSides(us, them, allUs, allThem, attr, attributes[attr]);
      allUs := Extended(allUs, attr, attributes[attr], Us);
      allThem := Extended(allThem, attr, attributes[attr], Them);
    }
    assert attributes - names == attributes;
  }

  /** One side's attributes with one more, if it has a value for that side. */
  function Extended(all: SideMap, attr: string, sides: Values, side: Side): SideMap {
    if side in sides then all[attr := sides[side]] else all
  }

  /** What a side gains when one more attribute has been met. */
  lemma SideExtends(attributes: Attributes, left: set<string>, attr: string, side: Side)
    requires attr in left && left <= attributes.Keys
    ensures var all := SideOf(attributes - left, side);
            && attr !in all
            && ("" !in attributes ==> "" !in all)
            && SideOf(attributes - (left - {attr}), side) == Extended(all, attr, attributes[attr], side)
  {
  }

  /** One attribute is considered for each side that has a value for it, in any order. */
  method ConsiderSides(us0: SideMap, them0: SideMap, ghost allUs: SideMap, ghost allThem: SideMap, attr: string,
                       sides: Values)
    returns (us: SideMap, them: SideMap)
    requires attr !in allUs && attr !in allThem && "" !in allUs && "" !in allThem
    requires IsTopThree(us0, allUs) && IsTopThree(them0, allThem)
    ensures IsTopThree(us, Extended(allUs, attr, sides, Us)) && IsTopThree(them, Extended(allThem, attr, sides, Them))
  {
    us, them := us0, them0;
    var keys := sides.Keys;
    while keys != {}
      invariant keys <= sides.Keys
      invariant IsTopThree(us, if Us in keys then allUs else Extended(allUs, attr, sides, Us))
      invariant IsTopThree(them, if Them in keys then allThem else Extended(allThem, attr, sides, Them))
      decreases |keys|
    {
      var side := Next(keys);
      keys := keys - {side};
      if side == Me {
        continue;
      }
      if side == Us {
        us := Consider(us, allUs, attr, sides[side]);
      } else {
        them := Consider(them, allThem, attr, sides[side]);
      }
    }
  }

  /** Two computations over the same attributes agree, whatever order each of them met the maps in. */
  lemma KeyAttributesAreDetermined(attributes: Attributes, side: Side, one: SideMap, other: SideMap)
    requires IsTopThree(one, SideOf(attributes, side)) && IsTopThree(other, SideOf(attributes, side))
    ensures one == other
    ensures |one| == Fewer(3, |SideOf(attributes, side)|)
  {
    TopThreeIsUnique(one, other, SideOf(attributes, side));
  }
}
