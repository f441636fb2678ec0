/** Player ranks (lolqueue-master/match.go): a tier and a division, compared through one number. */
module Ranks {
  import opened Basics

  datatype Rank = Rank(tier: string, division: string)

  const ORDERED_TIERS: seq<string> :=
    ["bronze", "silver", "gold", "platinum", "diamond", "master", "challenger"]
  const ORDERED_DIVISIONS: seq<string> := ["v", "iv", "iii", "ii", "i"]

  function LowerChar(c: char): char {
    if 'A' <= c <= 'Z' then (c as int - 'A' as int + 'a' as int) as char else c
  }

  function ToLower(s: string): string {
    seq(|s|, i requires 0 <= i < |s| => LowerChar(s[i]))
  }

  /** Two letters are taken for the same exactly when they differ in case at most. */
  lemma CaseDoesNotMatter(c: char, d: char)
    ensures LowerChar(c) == LowerChar(d) <==>
            || c == d
            || ('A' <= c <= 'Z' && d as int == c as int + 32)
            || ('A' <= d <= 'Z' && c as int == d as int + 32)
  {
  }

  /** Where `s` is listed, without regard to letter case; an unlisted name counts as the first. */
  function Place(names: seq<string>, s: string): (i: nat)
    requires Distinct(names)
    ensures ToLower(s) in names ==> i < |names| && names[i] == ToLower(s)
    ensures ToLower(s) !in names ==> i == 0
  {
    if i :| 0 <= i < |names| && names[i] == ToLower(s) then i else 0
  }

  /** The number that stands for a rank. */
  function RankVal(r: Rank): int {
    10 * Place(ORDERED_TIERS, r.tier) + Place(ORDERED_DIVISIONS, r.division)
  }

  method Val(r: Rank) returns (v: int)
    ensures v == RankVal(r)
  {
    v := 0;
    var lowerTier := ToLower(r.tier);
    for i := 0 to |ORDERED_TIERS|
      invariant v == 0 && lowerTier !in ORDERED_TIERS[..i]
    {
      if lowerTier == ORDERED_TIERS[i] {
        v := i * 10;
        break;
      }
    }
    ghost var t := v;
    assert t == 10 * Place(ORDERED_TIERS, r.tier);
    var lowerDiv := ToLower(r.division);
    for i := 0 to |ORDERED_DIVISIONS|
      invariant v == t && lowerDiv !in ORDERED_DIVISIONS[..i]
    {
      if lowerDiv == ORDERED_DIVISIONS[i] {
        v := v + i;
        break;
      }
    }
  }

  /** Ranks compare by tier first, and by division inside a tier. */
  lemma RankOrder(a: Rank, b: Rank)
    ensures
      var ta, tb := Place(ORDERED_TIERS, a.tier), Place(ORDERED_TIERS, b.tier);
      var da, db := Place(ORDERED_DIVISIONS, a.division), Place(ORDERED_DIVISIONS, b.division);
      && (RankVal(a) < RankVal(b) <==> ta < tb || (ta == tb && da < db))
      && (RankVal(a) == RankVal(b) <==> ta == tb && da == db)
  {
    assert Place(ORDERED_DIVISIONS, a.division) < 5 && Place(ORDERED_DIVISIONS, b.division) < 5;
  }
}
