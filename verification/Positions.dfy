/** Position assignment (lolqueue-master/match.go): a backtracking search that hands each
    player of a group one of the positions that player asked for, without giving a position
    to two players. The pseudo-position "any" may be given out any number of times. */
module Positions {
  import opened Wrappers

  type Position = string

  const ANY: Position := "any"

  /** A position may be given out when it is still free, or when it is "any". */
  predicate Fits(taken: seq<Position>, choice: Position) {
    choice == ANY || choice !in taken
  }

  /** `res` keeps the positions already fixed and then gives the k-th list one of its own entries. */
  ghost predicate IsAssignment(fixed: seq<Position>, desired: seq<seq<Position>>, res: seq<Position>) {
    && |res| == |fixed| + |desired|
    && fixed <= res
    && forall k :: |fixed| <= k < |res| ==> res[k] in desired[k - |fixed|] && Fits(res[..k], res[k])
  }

  ghost predicate Solvable(fixed: seq<Position>, desired: seq<seq<Position>>) {
    exists res :: IsAssignment(fixed, desired, res)
  }

  /** Nobody gets a position that he did not ask for, and no position but "any" is given out twice. */
  lemma AssignmentIsFair(desired: seq<seq<Position>>, res: seq<Position>)
    requires IsAssignment([], desired, res)
    ensures |res| == |desired| && forall k :: 0 <= k < |res| ==> res[k] in desired[k]
    ensures forall i, j :: 0 <= i < j < |res| && res[i] == res[j] ==> res[i] == ANY
  {
    forall i, j | 0 <= i < j < |res| && res[i] == res[j]
      ensures res[i] == ANY
    {
      assert Fits(res[..j], res[j]) && res[i] == res[..j][i];
    }
  }

  /** The first choice of an assignment fits, and the rest assigns the remaining lists. */
  lemma AssignmentPeels(fixed: seq<Position>, desired: seq<seq<Position>>, res: seq<Position>)
    requires desired != [] && IsAssignment(fixed, desired, res)
    ensures res[|fixed|] in desired[0] && Fits(fixed, res[|fixed|])
    ensures IsAssignment(fixed + [res[|fixed|]], desired[1..], res)
  {
    assert res[..|fixed|] == fixed;
    assert fixed + [res[|fixed|]] == res[..|fixed| + 1];
  }

  lemma AssignmentGrows(fixed: seq<Position>, pos: Position, desired: seq<seq<Position>>, res: seq<Position>)
    requires desired != [] && pos in desired[0] && Fits(fixed, pos)
    requires IsAssignment(fixed + [pos], desired[1..], res)
    ensures IsAssignment(fixed, desired, res)
  {
    assert res[..|fixed|] == (fixed + [pos])[..|fixed|] == fixed;
    assert res[|fixed|] == (fixed + [pos])[|fixed|];
    forall k | |fixed| <= k < |res|
      ensures res[k] in desired[k - |fixed|] && Fits(res[..k], res[k])
    {
      if k > |fixed| {
        assert desired[1..][k - |fixed| - 1] == desired[k - |fixed|];
      }
    }
  }

  /** The backtracking search. The outer loop also restarts from every later list, but a result
      found there is too short to be accepted: only the first list can ever lead to success. */
  method ResolvePositions(fixed: seq<Position>, desired: seq<seq<Position>>) returns (r: Option<seq<Position>>)
    ensures r.Some? ==> IsAssignment(fixed, desired, r.value)
    ensures r.None? ==> !Solvable(fixed, desired)
    decreases |desired|
  {
    if |desired| == 0 {
      return Some(fixed);
    }
    for i := 0 to |desired|
      invariant i > 0 ==> !Solvable(fixed, desired)
    {
      var d := desired[i];
      for j := 0 to |d|
        invariant i > 0 ==> !Solvable(fixed, desired)
        invariant i == 0 ==> forall res :: IsAssignment(fixed, desired, res) ==> res[|fixed|] !in d[..j]
      {
        var pos := d[j];
        assert d[..j + 1] == d[..j] + [pos];
        if pos != ANY && pos in fixed {
          forall res | i == 0 && IsAssignment(fixed, desired, res) ensures res[|fixed|] != pos {
            AssignmentPeels(fixed, desired, res);
          }
          continue;
        }
        var rest := ResolvePositions(fixed + [pos], desired[i + 1..]);
        if rest.Some? && |rest.value| == |fixed| + |desired| {
          assert i == 0;
          AssignmentGrows(fixed, pos, desired, rest.value);
          return rest;
        }
        forall res | i == 0 && IsAssignment(fixed, desired, res) ensures res[|fixed|] != pos {
          AssignmentPeels(fixed, desired, res);
        }
      }
      if i == 0 {
        forall res ensures !IsAssignment(fixed, desired, res) {
          assert d[..|d|] == d;
          if IsAssignment(fixed, desired, res) {
            AssignmentPeels(fixed, desired, res);
          }
        }
      }
    }
    return None;
  }

  /** What a viability check leaves of a position list: once it offers "any", nothing else. */
  function Collapse(wanted: seq<Position>): seq<Position> {
    if ANY in wanted && |wanted| > 1 then [ANY] else wanted
  }

  /** Some of the lists may have been collapsed, the others are as they were. */
  ghost predicate Collapsed(before: seq<seq<Position>>, after: seq<seq<Position>>) {
    && |before| == |after|
    && forall k :: 0 <= k < |before| ==> after[k] == before[k] || after[k] == Collapse(before[k])
  }

  /** Gives "any" to every player whose list was collapsed. */
  ghost function Relax(before: seq<seq<Position>>, after: seq<seq<Position>>, res: seq<Position>): (r: seq<Position>)
    requires |before| == |after| == |res|
  {
    seq(|res|, k requires 0 <= k < |res| => if after[k] == before[k] then res[k] else ANY)
  }

  lemma RelaxAssigns(before: seq<seq<Position>>, after: seq<seq<Position>>, res: seq<Position>)
    requires Collapsed(before, after) && IsAssignment([], before, res)
    ensures IsAssignment([], after, Relax(before, after, res))
  {
    var r := Relax(before, after, res);
    forall k | 0 <= k < |r| ensures r[k] in after[k] && Fits(r[..k], r[k]) {
      if r[k] != ANY {
        assert Fits(res[..k], res[k]);
        forall j | 0 <= j < k ensures r[j] != r[k] {
          assert res[..k][j] == res[j];
        }
      }
    }
  }

  /** An assignment for collapsed lists serves the original lists as it stands. */
  lemma CollapsedAssignmentServes(before: seq<seq<Position>>, after: seq<seq<Position>>, res: seq<Position>)
    requires Collapsed(before, after) && IsAssignment([], after, res)
    ensures IsAssignment([], before, res)
  {
    forall k | 0 <= k < |res| ensures res[k] in before[k] {
      assert res[k] in after[k];
    }
  }

  /** Collapsing any of the lists in place never changes whether an assignment exists. */
  lemma CollapseKeepsSolvability(before: seq<seq<Position>>, after: seq<seq<Position>>)
    requires Collapsed(before, after)
    ensures Solvable([], before) <==> Solvable([], after)
  {
    if Solvable([], before) {
      var res :| IsAssignment([], before, res);
      RelaxAssigns(before, after, res);
    }
    if Solvable([], after) {
      var res :| IsAssignment([], after, res);
      CollapsedAssignmentServes(before, after, res);
    }
  }
}
