/** The same search (lolqueue-master/match.go) on Go slices. Appending to a slice of three players
    whose backing array has room for four writes into that array, so every candidate tried as the
    fourth player overwrites the fourth player of a group found earlier. Viability is an arbitrary
    verdict on groups of two to five: the collapsing of position lists never changes it. */
module SliceAliasing {
  import opened Matchmaking
  import opened Positions
  import opened Ranks
  import opened Subsequences
  import opened Wrappers

  datatype Slice<T> = Slice(arr: array<T>, len: nat) {
    ghost predicate Fits() {
      len <= arr.Length
    }

    ghost function Contents(): seq<T>
      requires Fits()
      reads arr
    {
      arr[..len]
    }
  }

  /** The capacity of a slice grown by appends from one element: the next power of two. */
  function Capacity(len: nat): nat {
    if len <= 1 then 1 else if len <= 2 then 2 else if len <= 4 then 4 else if len <= 8 then 8 else 16
  }

  /** Appends in place while there is room, and into a new array of twice the size otherwise. */
  method Append<T>(s: Slice<T>, x: T) returns (r: Slice<T>)
    requires s.Fits() && s.arr.Length > 0
    modifies s.arr
    ensures r.Fits() && r.len == s.len + 1 && r.Contents() == old(s.Contents()) + [x]
    ensures s.len < s.arr.Length ==> r.arr == s.arr && s.arr[..] == old(s.arr[..])[s.len := x]
    ensures s.len == s.arr.Length ==> fresh(r.arr) && r.arr.Length == 2 * s.arr.Length && s.arr[..] == old(s.arr[..])
  {
    if s.len < s.arr.Length {
      s.arr[s.len] := x;
      return Slice(s.arr, s.len + 1);
    }
    var grown := new T[2 * s.arr.Length](_ => x);
    for i := 0 to s.len
      invariant grown[..i] == s.arr[..i]
      invariant grown[s.len] == x && s.arr[..] == old(s.arr[..])
    {
      grown[i] := s.arr[i];
    }
    return Slice(grown, s.len + 1);
  }

  // ---------- What the search on slices returns, as values ----------

  ghost predicate Verdict<T(!new)>(viable: seq<T> -> bool) {
    forall g :: viable(g) ==> 2 <= |g| <= 5
  }

  ghost function Checked<T>(viable: seq<T> -> bool, group: seq<T>): Option<seq<T>> {
    if viable(group) then Some(group) else None
  }

  /** The last candidate tried is what a found group of four ends with. */
  ghost function Overwritten<T>(chosen: seq<T>, candidates: seq<T>, best: Option<seq<T>>): Option<seq<T>> {
    if |chosen| == 3 && candidates != [] && best.Some? && |best.value| == 4
    then Some(chosen + [candidates[|candidates| - 1]])
    else best
  }

  ghost function Found<T>(viable: seq<T> -> bool, chosen: seq<T>, candidates: seq<T>): Option<seq<T>>
    decreases |candidates|, |candidates| + 1
  {
    if |chosen| > 10 then None
    else
      var best := Overwritten(chosen, candidates, Longest(viable, chosen, candidates, |candidates|));
      Checked(viable, if best.Some? then best.value else chosen)
  }

  /** The first longest group found through one of the first `n` candidates. */
  ghost function Longest<T>(viable: seq<T> -> bool, chosen: seq<T>, candidates: seq<T>, n: nat): Option<seq<T>>
    requires n <= |candidates|
    decreases |candidates|, n
  {
    if n == 0 then None
    else
      var best := Longest(viable, chosen, candidates, n - 1);
      var consider := Found(viable, chosen + [candidates[n - 1]], candidates[n..]);
      if consider.Some? && (best.None? || |best.value| < |consider.value|) then consider else best
  }

  /** The group found through candidate `j`. */
  ghost function Through<T>(viable: seq<T> -> bool, chosen: seq<T>, candidates: seq<T>, j: nat): Option<seq<T>>
    requires j < |candidates|
  {
    Found(viable, chosen + [candidates[j]], candidates[j + 1..])
  }

  lemma {:induction false} LongestIsFirstLongest<T(!new)>(viable: seq<T> -> bool, chosen: seq<T>, candidates: seq<T>,
                                                          n: nat)
    requires n <= |candidates|
    ensures var best := Longest(viable, chosen, candidates, n);
            && (best.Some? ==> exists j :: 0 <= j < n && Through(viable, chosen, candidates, j) == best)
            && (forall j :: 0 <= j < n && Through(viable, chosen, candidates, j).Some? ==>
                              best.Some? && |Through(viable, chosen, candidates, j).value| <= |best.value|)
  {
    if n > 0 {
      LongestIsFirstLongest(viable, chosen, candidates, n - 1);
      var last := Through(viable, chosen, candidates, n - 1);
    }
  }

  /** Whatever is returned is a viable extension, overwritten or not. */
  lemma {:induction false} FoundIsViable<T(!new)>(viable: seq<T> -> bool, chosen: seq<T>, candidates: seq<T>)
    ensures var r := Found(viable, chosen, candidates);
            r.Some? ==> viable(r.value) && Extends(chosen, candidates, r.value)
    decreases |candidates|
  {
    var r := Found(viable, chosen, candidates);
    if r.Some? {
      var best := Longest(viable, chosen, candidates, |candidates|);
      LongestIsFirstLongest(viable, chosen, candidates, |candidates|);
      if best.Some? {
        if Overwritten(chosen, candidates, best) == best {
          var j :| 0 <= j < |candidates| && Through(viable, chosen, candidates, j) == best;
          FoundIsViable(viable, chosen + [candidates[j]], candidates[j + 1..]);
          ExtendsThroughCandidate(chosen, candidates, j, r.value);
        } else {
          var last := |candidates| - 1;
          assert Extends(chosen + [candidates[last]], candidates[last + 1..], r.value);
          ExtendsThroughCandidate(chosen, candidates, last, r.value);
        }
      }
    }
  }

  // ---------- When the result has the largest size ----------

  ghost predicate HasViable<T(!new)>(viable: seq<T> -> bool, chosen: seq<T>, candidates: seq<T>, n: nat) {
    exists g :: Extends(chosen, candidates, g) && |g| == n && viable(g)
  }

  /** Some viable group of four ends with the very last candidate. */
  ghost predicate HasFourEndingLast<T(!new)>(viable: seq<T> -> bool, chosen: seq<T>, candidates: seq<T>) {
    && candidates != []
    && exists g :: Extends(chosen, candidates[..|candidates| - 1], g) && |g| == 3
                   && viable(g + [candidates[|candidates| - 1]])
  }

  lemma HasViableThrough<T(!new)>(viable: seq<T> -> bool, chosen: seq<T>, candidates: seq<T>, n: nat)
    requires n > |chosen|
    ensures HasViable(viable, chosen, candidates, n) <==>
            exists j :: 0 <= j < |candidates| && HasViable(viable, chosen + [candidates[j]], candidates[j + 1..], n)
  {
    if HasViable(viable, chosen, candidates, n) {
      var g :| Extends(chosen, candidates, g) && |g| == n && viable(g);
      var j := ExtendsByFirst(chosen, candidates, g);
      assert HasViable(viable, chosen + [candidates[j]], candidates[j + 1..], n);
    }
    if j :| 0 <= j < |candidates| && HasViable(viable, chosen + [candidates[j]], candidates[j + 1..], n) {
      var g :| Extends(chosen + [candidates[j]], candidates[j + 1..], g) && |g| == n && viable(g);
      ExtendsThroughCandidate(chosen, candidates, j, g);
    }
  }

  lemma HasFourEndingLastThrough<T(!new)>(viable: seq<T> -> bool, chosen: seq<T>, candidates: seq<T>)
    requires |chosen| < 3
    ensures HasFourEndingLast(viable, chosen, candidates) <==>
            exists j :: 0 <= j < |candidates|
                        && HasFourEndingLast(viable, chosen + [candidates[j]], candidates[j + 1..])
  {
    var front := candidates[..|candidates| - (if candidates == [] then 0 else 1)];
    if HasFourEndingLast(viable, chosen, candidates) {
      var g :| Extends(chosen, front, g) && |g| == 3 && viable(g + [candidates[|candidates| - 1]]);
      var j := ExtendsByFirst(chosen, front, g);
      var rest := candidates[j + 1..];
      assert front[j + 1..] == rest[..|rest| - 1];
      assert HasFourEndingLast(viable, chosen + [candidates[j]], candidates[j + 1..]);
    }
    if j :| 0 <= j < |candidates| && HasFourEndingLast(viable, chosen + [candidates[j]], candidates[j + 1..]) {
      var rest := candidates[j + 1..];
      var g :| Extends(chosen + [candidates[j]], rest[..|rest| - 1], g) && |g| == 3 && viable(g + [rest[|rest| - 1]]);
      assert front[j] == candidates[j] && front[j + 1..] == rest[..|rest| - 1];
      ExtendsThroughCandidate(chosen, front, j, g);
    }
  }

  ghost predicate HasSize<T>(r: Option<seq<T>>, n: nat) {
    r.Some? && |r.value| == n
  }

  /** A result has five players exactly when some viable group has. */
  lemma {:induction false} FiveAreFound<T(!new)>(viable: seq<T> -> bool, chosen: seq<T>, candidates: seq<T>)
    requires Verdict(viable) && 1 <= |chosen|
    ensures |chosen| > 5 ==> Found(viable, chosen, candidates).None?
    ensures HasSize(Found(viable, chosen, candidates), 5) <==> HasViable(viable, chosen, candidates, 5)
    decreases |candidates|
  {
    var r := Found(viable, chosen, candidates);
    FoundIsViable(viable, chosen, candidates);
    if HasViable(viable, chosen, candidates, 5) && |chosen| < 5 {
      HasViableThrough(viable, chosen, candidates, 5);
      var j :| 0 <= j < |candidates| && HasViable(viable, chosen + [candidates[j]], candidates[j + 1..], 5);
      FiveAreFound(viable, chosen + [candidates[j]], candidates[j + 1..]);
      assert HasSize(Through(viable, chosen, candidates, j), 5);
      LongestHasViable(viable, chosen, candidates);
    } else if |chosen| >= 5 {
      NothingBeyondFive(viable, chosen, candidates);
      if HasViable(viable, chosen, candidates, 5) {
        var g :| Extends(chosen, candidates, g) && |g| == 5 && viable(g);
        assert g == chosen;
      }
    }
  }

  /** The longest group found on the way is itself viable, so it has at most five players. */
  lemma LongestHasViable<T(!new)>(viable: seq<T> -> bool, chosen: seq<T>, candidates: seq<T>)
    requires Verdict(viable)
    ensures var best := Longest(viable, chosen, candidates, |candidates|);
            best.Some? ==> viable(best.value) && |chosen| < |best.value| <= 5 && Extends(chosen, candidates, best.value)
    ensures forall j | 0 <= j < |candidates| && Through(viable, chosen, candidates, j).Some? ::
              var best := Longest(viable, chosen, candidates, |candidates|);
              best.Some? && |Through(viable, chosen, candidates, j).value| <= |best.value|
  {
    LongestIsFirstLongest(viable, chosen, candidates, |candidates|);
    var best := Longest(viable, chosen, candidates, |candidates|);
    if best.Some? {
      var j :| 0 <= j < |candidates| && Through(viable, chosen, candidates, j) == best;
      FoundIsViable(viable, chosen + [candidates[j]], candidates[j + 1..]);
      ExtendsThroughCandidate(chosen, candidates, j, best.value);
    }
  }

  lemma NothingBeyondFive<T(!new)>(viable: seq<T> -> bool, chosen: seq<T>, candidates: seq<T>)
    requires Verdict(viable) && |chosen| >= 5
    ensures Longest(viable, chosen, candidates, |candidates|) == None
  {
    LongestHasViable(viable, chosen, candidates);
  }

  /** While no group of five is viable, a result has four players exactly when some viable group of
      four ends with the last candidate, although another group of four may be viable. */
  lemma {:induction false} FourAreFound<T(!new)>(viable: seq<T> -> bool, chosen: seq<T>, candidates: seq<T>)
    requires Verdict(viable) && 1 <= |chosen| <= 3
    requires !HasViable(viable, chosen, candidates, 5)
    ensures HasSize(Found(viable, chosen, candidates), 4) <==> HasFourEndingLast(viable, chosen, candidates)
    decreases |candidates|
  {
    LongestHasViable(viable, chosen, candidates);
    FiveAreFound(viable, chosen, candidates);
    FoundIsViable(viable, chosen, candidates);
    HasViableThrough(viable, chosen, candidates, 5);
    if |chosen| == 3 {
      FourthIsOverwritten(viable, chosen, candidates);
    } else {
      HasFourEndingLastThrough(viable, chosen, candidates);
      forall j | 0 <= j < |candidates|
        ensures HasSize(Through(viable, chosen, candidates, j), 4) <==>
                HasFourEndingLast(viable, chosen + [candidates[j]], candidates[j + 1..])
      {
        FourAreFound(viable, chosen + [candidates[j]], candidates[j + 1..]);
      }
      LongestIsFirstLongest(viable, chosen, candidates, |candidates|);
      LongestIsNoFive(viable, chosen, candidates);
    }
  }

  lemma LongestIsNoFive<T(!new)>(viable: seq<T> -> bool, chosen: seq<T>, candidates: seq<T>)
    requires Verdict(viable) && !HasViable(viable, chosen, candidates, 5)
    ensures !HasSize(Longest(viable, chosen, candidates, |candidates|), 5)
  {
    LongestHasViable(viable, chosen, candidates);
  }

  lemma FourthIsOverwritten<T(!new)>(viable: seq<T> -> bool, chosen: seq<T>, candidates: seq<T>)
    requires Verdict(viable) && |chosen| == 3
    requires !HasViable(viable, chosen, candidates, 5)
    ensures HasSize(Found(viable, chosen, candidates), 4) <==> HasFourEndingLast(viable, chosen, candidates)
  {
    LongestHasViable(viable, chosen, candidates);
    LongestIsNoFive(viable, chosen, candidates);
    if candidates != [] {
      var n := |candidates|;
      var last := candidates[n - 1];
      assert Extends(chosen, candidates[..n - 1], chosen);
      if HasFourEndingLast(viable, chosen, candidates) {
        var g :| Extends(chosen, candidates[..n - 1], g) && |g| == 3 && viable(g + [last]);
        assert g == chosen;
        assert candidates[n..] == [];
        LongestHasViable(viable, chosen + [last], []);
        assert Through(viable, chosen, candidates, n - 1) == Some(chosen + [last]);
      }
    }
  }

  /** The search on slices fails to return a largest viable group exactly when the largest size is
      four and no viable group of four ends with the last candidate. */
  lemma {:induction false} LargestUnlessFourOverwritten<T(!new)>(viable: seq<T> -> bool, chosen: seq<T>,
                                                                 candidates: seq<T>, n: nat)
    requires Verdict(viable) && 1 <= |chosen| <= 3
    requires HasViable(viable, chosen, candidates, n) && forall m | m > n :: !HasViable(viable, chosen, candidates, m)
    ensures HasSize(Found(viable, chosen, candidates), n) <==> n != 4 || HasFourEndingLast(viable, chosen, candidates)
    decreases |candidates|
  {
    if n == 5 {
      FiveAreFound(viable, chosen, candidates);
    } else if n == 4 {
      FourAreFound(viable, chosen, candidates);
    } else {
      SmallIsFound(viable, chosen, candidates, n);
    }
  }

  /** Groups of two and three are never overwritten. */
  lemma {:induction false} SmallIsFound<T(!new)>(viable: seq<T> -> bool, chosen: seq<T>, candidates: seq<T>, n: nat)
    requires Verdict(viable) && 1 <= |chosen| <= 3 && n <= 3
    requires HasViable(viable, chosen, candidates, n) && forall m | m > n :: !HasViable(viable, chosen, candidates, m)
    ensures HasSize(Found(viable, chosen, candidates), n)
    decreases |candidates|
  {
    LongestHasViable(viable, chosen, candidates);
    var best := Longest(viable, chosen, candidates, |candidates|);
    assert best.Some? ==> HasViable(viable, chosen, candidates, |best.value|);
    if n > |chosen| {
      HasViableThrough(viable, chosen, candidates, n);
      var j :| 0 <= j < |candidates| && HasViable(viable, chosen + [candidates[j]], candidates[j + 1..], n);
      var longer, rest := chosen + [candidates[j]], candidates[j + 1..];
      forall m | m > n ensures !HasViable(viable, longer, rest, m) {
        HasViableThrough(viable, chosen, candidates, m);
      }
      SmallIsFound(viable, longer, rest, n);
      assert HasSize(Through(viable, chosen, candidates, j), n);
    } else {
      var g :| Extends(chosen, candidates, g) && |g| == n && viable(g);
      assert g == chosen;
    }
  }

  /** Four players content with each other, who all insist on a group of four. */
  const LOCAL := Profile("na", Rank("gold", "i"), Criteria("na", [ANY], 4, Rank("gold", "i"), Rank("gold", "i")))

  /** A player of another region who joined the queue last. */
  const STRANGER := LOCAL.(region := "euw", criteria := LOCAL.criteria.(region := "euw"))

  const LATE_STRANGER: seq<Profile> := [LOCAL, LOCAL, LOCAL, STRANGER]

  lemma LocalsAreViable()
    ensures Viable([LOCAL, LOCAL, LOCAL, LOCAL])
    ensures Extends([LOCAL], LATE_STRANGER, [LOCAL, LOCAL, LOCAL, LOCAL])
  {
    var four := [LOCAL, LOCAL, LOCAL, LOCAL];
    assert IsAssignment([], Wishes(four), [ANY, ANY, ANY, ANY]);
    assert PicksFirst(four[3..], LATE_STRANGER[2..], 0);
    assert PicksFirst(four[2..], LATE_STRANGER[1..], 0);
    assert PicksFirst(four[1..], LATE_STRANGER, 0);
  }

  lemma FiveIncludeTheStranger(g: seq<Profile>)
    requires Extends([LOCAL], LATE_STRANGER, g) && |g| == 5
    ensures STRANGER in g
  {
    FullSelection(g[1..], LATE_STRANGER);
    assert g[4] == g[1..][3];
  }

  lemma OnlyLocalsAreViable(g: seq<Profile>)
    requires Extends([LOCAL], LATE_STRANGER, g) && Viable(g)
    ensures |g| == 4 && STRANGER !in g
  {
    if |g| == 5 {
      FiveIncludeTheStranger(g);
    }
    assert g[0] == [LOCAL][0] && LOCAL in g;
    assert Satisfied(LOCAL.criteria, g);
  }

  lemma NoViableFourEndsWithTheStranger()
    ensures !HasFourEndingLast(g => Viable(g), [LOCAL], LATE_STRANGER)
  {
    forall g | Extends([LOCAL], LATE_STRANGER[..3], g) ensures !Viable(g + [STRANGER]) {
      ExtendsByLast([LOCAL], LATE_STRANGER, g);
      if Viable(g + [STRANGER]) {
        OnlyLocalsAreViable(g + [STRANGER]);
      }
    }
  }

  /** A queue in which the only viable group is lost: the four who could play are found, the last
      candidate overwrites the fourth of them, and the group that is left is not viable. */
  lemma LateStrangerLosesTheMatch()
    ensures HasViable(g => Viable(g), [LOCAL], LATE_STRANGER, 4)
    ensures Found(g => Viable(g), [LOCAL], LATE_STRANGER) == None
  {
    var viable: seq<Profile> -> bool := g => Viable(g);
    LocalsAreViable();
    assert HasViable(viable, [LOCAL], LATE_STRANGER, 4);
    forall g | Extends([LOCAL], LATE_STRANGER, g) && viable(g) ensures |g| == 4 {
      OnlyLocalsAreViable(g);
    }
    FoundIsViable(viable, [LOCAL], LATE_STRANGER);
    LargestUnlessFourOverwritten(viable, [LOCAL], LATE_STRANGER, 4);
    NoViableFourEndsWithTheStranger();
  }

  // ---------- The first head that finds a group ----------

  /** What is offered for a whole queue: what the first player finds for whom the search returns anything. */
  ghost function Made<T>(viable: seq<T> -> bool, queue: seq<T>): Option<seq<T>> {
    if queue == [] then None
    else
      var found := Found(viable, [queue[0]], queue[1..]);
      if found.Some? then found else Made(viable, queue[1..])
  }

  ghost predicate CanHead<T(!new)>(viable: seq<T> -> bool, queue: seq<T>, i: nat)
    requires i < |queue|
  {
    exists n: nat :: Heads(viable, queue, i, n)
  }

  /** Some viable group of `n` is headed by player `i`. */
  ghost predicate Heads<T(!new)>(viable: seq<T> -> bool, queue: seq<T>, i: nat, n: nat)
    requires i < |queue|
  {
    HasViable(viable, [queue[i]], queue[i + 1..], n)
  }

  /** Nobody is passed over who finds a group, and whoever cannot head one finds none. */
  lemma {:induction false} HeadsBeforeFindNothing<T(!new)>(viable: seq<T> -> bool, queue: seq<T>, i: nat)
    requires i < |queue| && forall k :: 0 <= k < i ==> !CanHead(viable, queue, k)
    ensures Made(viable, queue) == Made(viable, queue[i..])
  {
    if i > 0 {
      HeadsBeforeFindNothing(viable, queue, i - 1);
      var rest := queue[i - 1..];
      assert rest[0] == queue[i - 1] && rest[1..] == queue[i..];
      WhoFindsCanHead(viable, queue, i - 1);
    }
  }

  lemma WhoFindsCanHead<T(!new)>(viable: seq<T> -> bool, queue: seq<T>, i: nat)
    requires i < |queue|
    ensures Found(viable, [queue[i]], queue[i + 1..]).Some? ==> CanHead(viable, queue, i)
  {
    FoundIsViable(viable, [queue[i]], queue[i + 1..]);
    var found := Found(viable, [queue[i]], queue[i + 1..]);
    if found.Some? {
      assert Heads(viable, queue, i, |found.value|);
    }
  }

  lemma {:induction false} MadeIsHeaded<T(!new)>(viable: seq<T> -> bool, queue: seq<T>)
    requires Made(viable, queue).Some?
    ensures Made(viable, queue).value != [] && Made(viable, queue).value[0] in queue
  {
    FoundIsViable(viable, [queue[0]], queue[1..]);
    if Found(viable, [queue[0]], queue[1..]).None? {
      MadeIsHeaded(viable, queue[1..]);
    }
  }

  /** For a whole queue: a largest group of the longest-waiting player who can head one is offered if and
      only if its size is not four or some viable four of his ends with the last player of the queue. */
  lemma {:induction false} MadeUnlessFourOverwritten<T(!new)>(viable: seq<T> -> bool, queue: seq<T>, i: nat, n: nat)
    requires Verdict(viable) && i < |queue| && forall k, m | 0 <= k < m < |queue| :: queue[k] != queue[m]
    requires forall k :: 0 <= k < i ==> !CanHead(viable, queue, k)
    requires Heads(viable, queue, i, n) && forall m: nat | m > n :: !Heads(viable, queue, i, m)
    ensures HasSize(Made(viable, queue), n) && Made(viable, queue).value[..1] == [queue[i]] <==>
            n != 4 || HasFourEndingLast(viable, [queue[i]], queue[i + 1..])
  {
    HeadsBeforeFindNothing(viable, queue, i);
    var head, behind := [queue[i]], queue[i + 1..];
    forall m | m > n
      ensures !HasViable(viable, head, behind, m)
    {
      assert !Heads(viable, queue, i, m);
    }
    LargestUnlessFourOverwritten(viable, head, behind, n);
    var rest := queue[i..];
    assert rest[0] == queue[i] && rest[1..] == queue[i + 1..];
    var found := Found(viable, [queue[i]], queue[i + 1..]);
    FoundIsViable(viable, [queue[i]], queue[i + 1..]);
    if found.None? && Made(viable, rest[1..]).Some? {
      MadeIsHeaded(viable, rest[1..]);
      assert Made(viable, rest[1..]).value[0] != queue[i];
    }
  }

  lemma LateHeadsFindNothing(k: nat)
    requires k < 4
    ensures Found(g => Viable(g), [LATE_STRANGER[k]], LATE_STRANGER[k + 1..]) == None
  {
    var viable: seq<Profile> -> bool := g => Viable(g);
    FoundIsViable(viable, [LATE_STRANGER[k]], LATE_STRANGER[k + 1..]);
    forall g | Extends([LATE_STRANGER[k]], LATE_STRANGER[k + 1..], g)
      ensures !Viable(g)
    {
      LateGroupsAreNotViable(k, g);
    }
  }

  lemma LateGroupsAreNotViable(k: nat, g: seq<Profile>)
    requires k < 4 && Extends([LATE_STRANGER[k]], LATE_STRANGER[k + 1..], g)
    ensures !Viable(g)
  {
    SubMembers(g[1..], LATE_STRANGER[k + 1..]);
    assert g[0] == [LATE_STRANGER[k]][0];
    if k == 0 && |g| == 4 {
      FullSelection(g[1..], LATE_STRANGER[1..]);
      assert g[3] == g[1..][2] == STRANGER;
    }
    assert g[0] in g && (Viable(g) ==> Satisfied(g[0].criteria, g));
  }

  lemma MadeSteps<T>(viable: seq<T> -> bool, queue: seq<T>, k: nat)
    requires k < |queue| && Found(viable, [queue[k]], queue[k + 1..]) == None
    ensures Made(viable, queue[k..]) == Made(viable, queue[k + 1..])
  {
    hide Found;
    var rest := queue[k..];
    assert rest[0] == queue[k] && rest[1..] == queue[k + 1..];
  }

  /** In that queue nothing at all is offered. */
  lemma {:induction false} LateStrangerLosesEveryMatch()
    ensures Made(g => Viable(g), [LOCAL] + LATE_STRANGER) == None
    ensures CanHead(g => Viable(g), [LOCAL] + LATE_STRANGER, 0)
  {
    var viable: seq<Profile> -> bool := g => Viable(g);
    var queue := [LOCAL] + LATE_STRANGER;
    LateStrangerLosesTheMatch();
    assert queue[1..] == LATE_STRANGER;
    assert Heads(viable, queue, 0, 4);
    LateHeadsFindNothing(0);
    LateHeadsFindNothing(1);
    LateHeadsFindNothing(2);
    LateHeadsFindNothing(3);
    hide Found;
    MadeSteps(viable, LATE_STRANGER, 3);
    MadeSteps(viable, LATE_STRANGER, 2);
    MadeSteps(viable, LATE_STRANGER, 1);
    MadeSteps(viable, LATE_STRANGER, 0);
    assert LATE_STRANGER[4..] == [] && LATE_STRANGER[0..] == LATE_STRANGER;
  }

  /** Picking as many entries as there are picks them all. */
  lemma {:induction false} FullSelection<T>(s: seq<T>, list: seq<T>)
    requires IsSub(s, list) && |s| == |list|
    ensures s == list
    decreases |s|
  {
    if s != [] {
      var j :| 0 <= j < |list| && PicksFirst(s, list, j);
      SubMembers(s[1..], list[j + 1..]);
      FullSelection(s[1..], list[j + 1..]);
    }
  }

  // ---------- The search on arrays ----------

  /** A group of four found by appending in place to a slice of three. */
  ghost predicate InPlace<T>(chosen: Slice<T>, group: Slice<T>) {
    chosen.len == 3 && group == Slice(chosen.arr, 4)
  }

  ghost function Values<T>(group: Option<Slice<T>>): Option<seq<T>>
    requires group.Some? ==> group.value.Fits()
    reads if group.Some? then {group.value.arr} else {}
  {
    if group.None? then None else Some(group.value.Contents())
  }

  lemma FoundStarts<T>(viable: seq<T> -> bool, chosen: seq<T>, candidates: seq<T>)
    ensures |chosen| > 10 ==> Found(viable, chosen, candidates) == None
    ensures var best := Overwritten(chosen, candidates, Longest(viable, chosen, candidates, |candidates|));
            |chosen| <= 10 ==>
              Found(viable, chosen, candidates) == Checked(viable, if best.Some? then best.value else chosen)
    ensures Longest(viable, chosen, candidates, 0) == None
  {
  }

  lemma LongestSteps<T>(viable: seq<T> -> bool, chosen: seq<T>, candidates: seq<T>, i: nat)
    requires i < |candidates|
    ensures var best, consider := Longest(viable, chosen, candidates, i), Through(viable, chosen, candidates, i);
            Longest(viable, chosen, candidates, i + 1) ==
            if consider.Some? && (best.None? || |best.value| < |consider.value|) then consider else best
  {
  }

  /** What the search returns is what `Found` says, read from the backing arrays when it returns. */
  method BestMatchFor<T(!new)>(viable: seq<T> -> bool, chosen: Slice<T>, candidates: seq<T>)
    returns (best: Option<Slice<T>>)
    requires Verdict(viable)
    requires chosen.Fits() && 1 <= chosen.len <= 11 && chosen.arr.Length == Capacity(chosen.len)
    modifies chosen.arr
    ensures chosen.Contents() == old(chosen.Contents())
    ensures chosen.len == chosen.arr.Length ==> chosen.arr[..] == old(chosen.arr[..])
    ensures best.Some? ==>
              best.value.Fits() && (best.value == chosen || InPlace(chosen, best.value) || fresh(best.value.arr))
    ensures best.Some? && best.value.len == chosen.len ==> best.value == chosen
    ensures Values(best) == Found(viable, old(chosen.Contents()), candidates)
    decreases |candidates|, 1
  {
    hide Found, Longest, Checked;
    best := None;
    ghost var g := chosen.Contents();
    FoundStarts(viable, g, candidates);
    if chosen.len > 10 {
      return;
    }
    for i := 0 to |candidates|
      invariant chosen.Contents() == g
      invariant chosen.len == chosen.arr.Length ==> chosen.arr[..] == old(chosen.arr[..])
      invariant chosen.len == 3 && i > 0 ==> chosen.arr[3] == candidates[i - 1]
      invariant best.Some? ==> best.value.Fits() && chosen.len < best.value.len
      invariant best.Some? && !InPlace(chosen, best.value) ==>
          fresh(best.value.arr) && !(chosen.len == 3 && best.value.len == 4)
      invariant best.Some? && InPlace(chosen, best.value) ==> HasSize(Longest(viable, g, candidates, i), 4)
      invariant best.None? || !InPlace(chosen, best.value) ==> Values(best) == Longest(viable, g, candidates, i)
    {
      LongestSteps(viable, g, candidates, i);
      var consider := Consider(viable, chosen, candidates, i);
      if consider.None? {
        continue;
      }
      if best.None? || best.value.len < consider.value.len {
        best := consider;
      }
    }
    if best.Some? && InPlace(chosen, best.value) {
      assert chosen.arr[..4] == chosen.arr[..3] + [chosen.arr[3]];
    }
    assert Values(best) == Overwritten(g, candidates, Longest(viable, g, candidates, |candidates|));
    var group := if best.None? then chosen else best.value;
    assert Found(viable, g, candidates) == Checked(viable, group.Contents());
    best := IsViable(viable, group);
  }

  method IsViable<T(!new)>(viable: seq<T> -> bool, group: Slice<T>) returns (r: Option<Slice<T>>)
    requires group.Fits()
    ensures r.Some? ==> r.value == group
    ensures Values(r) == Checked(viable, group.Contents())
  {
    r := if viable(group.arr[..group.len]) then Some(group) else None;
  }

  /** One candidate is appended, in place or not, and the search continues behind it. */
  method Consider<T(!new)>(viable: seq<T> -> bool, chosen: Slice<T>, candidates: seq<T>, i: nat)
    returns (r: Option<Slice<T>>)
    requires Verdict(viable) && i < |candidates|
    requires chosen.Fits() && 1 <= chosen.len <= 10 && chosen.arr.Length == Capacity(chosen.len)
    modifies chosen.arr
    ensures chosen.Contents() == old(chosen.Contents())
    ensures chosen.len == chosen.arr.Length ==> chosen.arr[..] == old(chosen.arr[..])
    ensures chosen.len == 3 ==> chosen.arr[3] == candidates[i]
    ensures r.Some? ==> r.value.Fits() && chosen.len < r.value.len <= 5
                        && (InPlace(chosen, r.value) || fresh(r.value.arr))
    ensures r.Some? && chosen.len == 3 && r.value.len == 4 ==> InPlace(chosen, r.value)
    ensures Values(r) == Through(viable, old(chosen.Contents()), candidates, i)
    decreases |candidates|, 0
  {
    ghost var g := chosen.Contents();
    var longer := Append(chosen, candidates[i]);
    r := BestMatchFor(viable, longer, candidates[i + 1..]);
    FoundIsViable(viable, g + [candidates[i]], candidates[i + 1..]);
    assert longer.Contents()[..|g|] == g;
  }

  /** Every player in turn, each with a new slice of one. */
  method Make<T(!new)>(viable: seq<T> -> bool, queue: seq<T>) returns (r: Option<Slice<T>>)
    requires Verdict(viable)
    ensures r.Some? ==> r.value.Fits()
    ensures Values(r) == Made(viable, queue)
  {
    for i := 0 to |queue|
      invariant Made(viable, queue) == Made(viable, queue[i..])
    {
      var arr := new T[1](_ => queue[i]);
      var chosen := Slice(arr, 1);
      assert chosen.Contents() == [queue[i]] && queue[i..][1..] == queue[i + 1..];
      r := BestMatchFor(viable, chosen, queue[i + 1..]);
      if r.Some? {
        return;
      }
    }
    r := None;
  }
}
