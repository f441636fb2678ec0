/** Time management (lolstats-master/ingest/time_management.go): an event stream becomes frames of
    one activity in one area, and three passes turn these into the frames that are reported. */
module TimeManagement {
  import opened Basics
  import opened Teams
  import opened Wrappers

  datatype Frame = Frame(activity: string, areaName: string, begin: real, end: real)

  datatype Fight = Fight(begin: real, end: real, participantIDs: set<int>)

  // ---------- Chronological frames ----------

  /** Frames in order, none ending before it begins, and no two overlapping. */
  ghost predicate Chronological(frames: seq<Frame>) {
    && (forall i :: 0 <= i < |frames| ==> frames[i].begin <= frames[i].end)
    && (forall i, j :: 0 <= i < j < |frames| ==> frames[i].end <= frames[j].begin)
  }

  ghost predicate Started(frames: seq<Frame>, now: real) {
    forall i :: 0 <= i < |frames| ==> frames[i].begin <= now
  }

  function Truncate(f: Frame, at: real): Frame {
    f.(end := Min(f.end, at))
  }

  /** Ends the last frame at `at`, if it would last longer. */
  function TruncateLast(frames: seq<Frame>, at: real): seq<Frame> {
    if frames == [] then frames
    else frames[..|frames| - 1] + [Truncate(frames[|frames| - 1], at)]
  }

  predicate CanMerge(f: Frame, o: Frame) {
    f.activity == o.activity && f.areaName == o.areaName && f.end >= o.begin - 1.0
  }

  /** Starts a frame; one that continues the last frame within a second extends it instead. */
  function WithFrame(frames: seq<Frame>, f: Frame): seq<Frame> {
    var cut := TruncateLast(frames, f.begin);
    if cut != [] && CanMerge(cut[|cut| - 1], f)
    then cut[..|cut| - 1] + [cut[|cut| - 1].(end := f.end)]
    else cut + [f]
  }

  lemma AppendChronological(frames: seq<Frame>, f: Frame)
    requires Chronological(frames) && f.begin <= f.end
    requires frames != [] ==> frames[|frames| - 1].end <= f.begin
    ensures Chronological(frames + [f])
  {
    var r := frames + [f];
    forall i | 0 <= i < |frames| ensures frames[i].end <= f.begin {
      assert frames[i].end <= frames[|frames| - 1].end;
    }
  }

  lemma TruncateLastChronological(frames: seq<Frame>, at: real)
    requires Chronological(frames) && Started(frames, at)
    ensures Chronological(TruncateLast(frames, at)) && Started(TruncateLast(frames, at), at)
    ensures frames != [] ==> TruncateLast(frames, at)[|frames| - 1].end <= at
  {
  }

  lemma WithFrameChronological(frames: seq<Frame>, f: Frame)
    requires Chronological(frames) && Started(frames, f.begin) && f.begin <= f.end
    ensures Chronological(WithFrame(frames, f)) && Started(WithFrame(frames, f), f.begin)
  {
    TruncateLastChronological(frames, f.begin);
    var cut := TruncateLast(frames, f.begin);
    if cut != [] && CanMerge(cut[|cut| - 1], f) {
    } else {
      AppendChronological(cut, f);
    }
  }

  // ---------- The three passes ----------

  predicate IsRelevant(fight: Fight, participantID: int) {
    participantID in fight.participantIDs
  }

  ghost predicate FightsOrdered(fights: seq<Fight>) {
    && (forall i :: 0 <= i < |fights| ==> fights[i].begin <= fights[i].end)
    && (forall i, j :: 0 <= i < j < |fights| ==> fights[i].begin <= fights[j].begin)
  }

  /** Each kept frame lasts until its own end or until the next kept frame begins. */
  function Cut(kept: seq<Frame>): (r: seq<Frame>)
    ensures |r| == |kept|
  {
    seq(|kept|, k requires 0 <= k < |kept| =>
      if k + 1 < |kept| then Truncate(kept[k], kept[k + 1].begin) else kept[k])
  }

  lemma CutGrows(kept: seq<Frame>, f: Frame)
    ensures Cut(kept + [f]) == TruncateLast(Cut(kept), f.begin) + [f]
  {
  }

  lemma CutAt(kept: seq<Frame>, k: nat)
    requires k < |kept|
    ensures Cut(kept)[k].begin == kept[k].begin
    ensures Cut(kept)[k].end == if k + 1 < |kept| then Min(kept[k].end, kept[k + 1].begin) else kept[k].end
  {
  }

  lemma CutIsInOrder(kept: seq<Frame>)
    requires Ascending(kept)
    ensures Chronological(Cut(kept))
  {
    hide Cut;
    var r := Cut(kept);
    forall i | 0 <= i < |r|
      ensures r[i].begin <= r[i].end
    {
      CutAt(kept, i);
      assert i + 1 < |kept| ==> kept[i].begin <= kept[i + 1].begin;
    }
    forall i, j | 0 <= i < j < |r|
      ensures r[i].end <= r[j].begin
    {
      CutAt(kept, i);
      CutAt(kept, j);
      assert i + 1 < j ==> kept[i + 1].begin <= kept[j].begin;
    }
  }

  lemma InOrderOnceCut(kept: seq<Frame>)
    requires Chronological(Cut(kept))
    ensures Ascending(kept)
  {
    hide Cut;
    var r := Cut(kept);
    forall i | 0 <= i < |kept|
      ensures kept[i].begin <= kept[i].end
    {
      CutAt(kept, i);
      assert r[i].begin <= r[i].end;
    }
    forall i, j | 0 <= i < j < |kept|
      ensures kept[i].begin <= kept[j].begin
    {
      CutAt(kept, i);
      CutAt(kept, j);
      assert r[i].begin <= r[i].end <= r[j].begin;
    }
  }

  /** The cut list is in order and apart exactly when the kept frames begin one after the other and none
      ends before it begins. */
  lemma CutIsChronological(kept: seq<Frame>)
    ensures Chronological(Cut(kept)) <==> Ascending(kept)
  {
    hide Cut, Chronological, Ascending;
    if Ascending(kept) {
      CutIsInOrder(kept);
    }
    if Chronological(Cut(kept)) {
      InOrderOnceCut(kept);
    }
  }

  ghost predicate Ascending(kept: seq<Frame>) {
    && (forall i :: 0 <= i < |kept| ==> kept[i].begin <= kept[i].end)
    && (forall i, j :: 0 <= i < j < |kept| ==> kept[i].begin <= kept[j].begin)
  }

  const BASE := Frame("", "base", 0.0, 0.0)

  /** The frame kept last, which before the first one is the base. */
  function LastOf(kept: seq<Frame>): Frame {
    if kept == [] then BASE else kept[|kept| - 1]
  }

  /** A frame is dropped when it begins before the last kept one ends, unless it is a death. */
  predicate Drops(last: Frame, f: Frame) {
    f.activity != "dead" && f.begin < last.end
  }

  /** From the `j`th fight on, how many have been taken once a frame that begins at `time` comes up. */
  function Advance(fights: seq<Fight>, j: nat, time: real): (k: nat)
    requires j <= |fights|
    ensures j <= k <= |fights|
    decreases |fights| - j
  {
    if j < |fights| && fights[j].begin <= time then Advance(fights, j + 1, time) else j
  }

  /** How many fights have been taken when `i` frames are done. */
  function Taken(frames: seq<Frame>, fights: seq<Fight>, i: nat): (j: nat)
    requires i <= |frames|
    ensures j <= |fights|
  {
    if i == 0 then 0 else Advance(fights, Taken(frames, fights, i - 1), frames[i - 1].begin)
  }

  function FightFrame(fight: Fight, areaName: string): Frame {
    Frame("fight", areaName, fight.begin, fight.end)
  }

  /** The relevant fights from the `j`th up to the `k`th, all in one place. */
  function FightFrames(fights: seq<Fight>, participantID: int, areaName: string, j: nat, k: nat): seq<Frame>
    requires j <= k <= |fights|
    decreases k - j
  {
    if j == k then []
    else
      FightFrames(fights, participantID, areaName, j, k - 1)
      + if IsRelevant(fights[k - 1], participantID) then [FightFrame(fights[k - 1], areaName)] else []
  }

  /** What is kept with the fights from the `j`th up to the `k`th, which take place where the player was. */
  function WithFights(kept: seq<Frame>, fights: seq<Fight>, participantID: int, j: nat, k: nat): seq<Frame>
    requires j <= k <= |fights|
  {
    kept + FightFrames(fights, participantID, LastOf(kept).areaName, j, k)
  }

  /** What is kept when `i` frames are done: each frame comes after the fights that begin no later. */
  function Merged(frames: seq<Frame>, fights: seq<Fight>, participantID: int, i: nat): seq<Frame>
    requires i <= |frames|
    decreases i, 0
  {
    if i == 0 then []
    else
      var met := Met(frames, fights, participantID, i - 1);
      if Drops(LastOf(met), frames[i - 1]) then met else met + [frames[i - 1]]
  }

  /** What is kept when frame `i` comes up. */
  function Met(frames: seq<Frame>, fights: seq<Fight>, participantID: int, i: nat): seq<Frame>
    requires i < |frames|
    decreases i, 1
  {
    WithFights(
      Merged(frames, fights, participantID, i), fights, participantID, Taken(frames, fights, i),
      Taken(frames, fights, i + 1))
  }

  /** The timeline with the fights in it. */
  function WithFighting(frames: seq<Frame>, fights: seq<Fight>, participantID: int): seq<Frame> {
    Cut(Merged(frames, fights, participantID, |frames|))
  }

  lemma OneMoreFight(kept: seq<Frame>, fights: seq<Fight>, participantID: int, j: nat, k: nat)
    requires j <= k < |fights|
    ensures WithFights(kept, fights, participantID, j, j) == kept
    ensures var with := WithFights(kept, fights, participantID, j, k);
            && LastOf(with).areaName == LastOf(kept).areaName
            && WithFights(kept, fights, participantID, j, k + 1) ==
               if IsRelevant(fights[k], participantID)
               then with + [FightFrame(fights[k], LastOf(with).areaName)] else with
  {
    AllInOnePlace(fights, participantID, LastOf(kept).areaName, j, k);
  }

  lemma {:induction false} AllInOnePlace(fights: seq<Fight>, participantID: int, areaName: string, j: nat, k: nat)
    requires j <= k <= |fights|
    ensures forall f <- FightFrames(fights, participantID, areaName, j, k) :: f.areaName == areaName
    decreases k - j
  {
    if j < k {
      AllInOnePlace(fights, participantID, areaName, j, k - 1);
    }
  }

  /** Adds the fights that begin no later than frame `i`, given what is kept of the frames before it. */
  method AddFightsBefore(
    frames: seq<Frame>, fights: seq<Fight>, participantID: int, newFrames0: seq<Frame>, last0: Frame, i: nat, j0: nat)
    returns (newFrames: seq<Frame>, last: Frame, j: nat)
    requires i < |frames| && j0 == Taken(frames, fights, i)
    requires newFrames0 == Cut(Merged(frames, fights, participantID, i))
    requires last0 == LastOf(Merged(frames, fights, participantID, i))
    ensures newFrames == Cut(Met(frames, fights, participantID, i))
    ensures last == LastOf(Met(frames, fights, participantID, i)) && j == Taken(frames, fights, i + 1)
  {
    hide Cut, FightFrames, WithFights, Merged;
    newFrames, last, j := newFrames0, last0, j0;
    ghost var kept0 := Merged(frames, fights, participantID, i);
    NoFightYet(kept0, fights, participantID, j0);
    while j < |fights| && fights[j].begin <= frames[i].begin
      invariant j0 <= j <= |fights| && Advance(fights, j, frames[i].begin) == Taken(frames, fights, i + 1)
      invariant newFrames == Cut(WithFights(kept0, fights, participantID, j0, j))
      invariant last == LastOf(WithFights(kept0, fights, participantID, j0, j))
    {
      OneMoreFight(kept0, fights, participantID, j0, j);
      if !IsRelevant(fights[j], participantID) {
        j := j + 1;
        continue;
      }
      var f := Frame("fight", last.areaName, fights[j].begin, fights[j].end);
      CutGrows(WithFights(kept0, fights, participantID, j0, j), f);
      newFrames := TruncateLast(newFrames, f.begin) + [f];
      last := f;
      j := j + 1;
    }
  }

  lemma NoFightYet(kept: seq<Frame>, fights: seq<Fight>, participantID: int, j: nat)
    requires j <= |fights|
    ensures WithFights(kept, fights, participantID, j, j) == kept
  {
  }

  lemma NothingCut(kept: seq<Frame>, at: real)
    requires LastOf(kept).end <= at
    ensures TruncateLast(Cut(kept), at) == Cut(kept)
  {
  }

  /** The first pass: it computes the timeline with the fights in it, whatever the order of either. */
  method AddFighting(frames: seq<Frame>, fights: seq<Fight>, participantID: int) returns (newFrames: seq<Frame>)
    ensures newFrames == WithFighting(frames, fights, participantID)
  {
    hide Cut, Met;
    newFrames := [];
    var last, j: nat := BASE, 0;
    NothingToCut();
    for i := 0 to |frames|
      invariant newFrames == Cut(Merged(frames, fights, participantID, i))
      invariant last == LastOf(Merged(frames, fights, participantID, i)) && j == Taken(frames, fights, i)
    {
      var frame := frames[i];
      newFrames, last, j := AddFightsBefore(frames, fights, participantID, newFrames, last, i, j);
      ghost var met := Met(frames, fights, participantID, i);
      CutGrows(met, frame);
      if frame.activity == "dead" {
        newFrames := TruncateLast(newFrames, frame.begin);
      } else if frame.begin < last.end {
        continue;
      } else {
        NothingCut(met, frame.begin);
      }
      newFrames := newFrames + [frame];
      last := frame;
    }
  }

  lemma NothingToCut()
    ensures Cut([]) == []
  {
  }

  // ---------- What the first pass keeps ----------

  /** Exactly the first `j` fights start no later than `time`. */
  ghost predicate SeenBy(fights: seq<Fight>, j: nat, time: real)
    requires j <= |fights|
  {
    && (forall k :: 0 <= k < j ==> fights[k].begin <= time)
    && (j < |fights| ==> fights[j].begin > time)
  }

  lemma SeenExactly(fights: seq<Fight>, j: nat, time: real, k: nat)
    requires j <= |fights| && k < |fights| && FightsOrdered(fights) && SeenBy(fights, j, time)
    ensures k < j <==> fights[k].begin <= time
  {
    assert j < k ==> fights[j].begin <= fights[k].begin;
  }

  lemma {:induction false} AdvanceSees(fights: seq<Fight>, j: nat, time: real)
    requires j <= |fights| && FightsOrdered(fights)
    ensures var k := Advance(fights, j, time);
            && (forall m :: j <= m < k ==> fights[m].begin <= time)
            && (k < |fights| ==> fights[k].begin > time)
    decreases |fights| - j
  {
    if j < |fights| && fights[j].begin <= time {
      AdvanceSees(fights, j + 1, time);
    }
  }

  /** Of ordered fights, those have been taken that begin no later than the last frame that came up. */
  lemma {:induction false} TakenAreSeen(frames: seq<Frame>, fights: seq<Fight>, i: nat)
    requires 0 < i <= |frames| && Chronological(frames) && FightsOrdered(fights)
    ensures SeenBy(fights, Taken(frames, fights, i), frames[i - 1].begin)
  {
    var j := Taken(frames, fights, i - 1);
    AdvanceSees(fights, j, frames[i - 1].begin);
    if i > 1 {
      TakenAreSeen(frames, fights, i - 1);
      BeginsAscend(frames, i - 2, i - 1);
    }
  }

  /** In order, no frame begins before an earlier one. */
  lemma BeginsAscend(frames: seq<Frame>, i: nat, j: nat)
    requires Chronological(frames) && i <= j < |frames|
    ensures frames[i].begin <= frames[j].begin
  {
    if i < j {
      assert frames[i].begin <= frames[i].end <= frames[j].begin;
    }
  }

  /** A fight is taken exactly when it begins no later than the last frame. */
  lemma {:induction false} LateFightsAreLost(frames: seq<Frame>, fights: seq<Fight>, k: nat)
    requires frames != [] && k < |fights| && Chronological(frames) && FightsOrdered(fights)
    ensures k < Taken(frames, fights, |frames|) <==> fights[k].begin <= frames[|frames| - 1].begin
  {
    var n := |frames|;
    TakenAreSeen(frames, fights, n);
    SeenExactly(fights, Taken(frames, fights, n), frames[n - 1].begin, k);
  }

  /** When and how long the relevant ones among the first `j` fights were. */
  ghost function RelevantSpans(fights: seq<Fight>, participantID: int, j: nat): seq<(real, real)>
    requires j <= |fights|
  {
    if j == 0 then []
    else
      RelevantSpans(fights, participantID, j - 1)
      + if IsRelevant(fights[j - 1], participantID) then [(fights[j - 1].begin, fights[j - 1].end)] else []
  }

  ghost function FightSpans(kept: seq<Frame>): seq<(real, real)> {
    if kept == [] then []
    else
      var last := kept[|kept| - 1];
      FightSpans(kept[..|kept| - 1]) + if last.activity == "fight" then [(last.begin, last.end)] else []
  }

  lemma FightSpansGrow(kept: seq<Frame>, f: Frame)
    ensures FightSpans(kept + [f]) == FightSpans(kept) + if f.activity == "fight" then [(f.begin, f.end)] else []
  {
    assert (kept + [f])[..|kept|] == kept;
  }

  lemma {:induction false} WithFightsOnce(kept: seq<Frame>, fights: seq<Fight>, participantID: int, j: nat, k: nat)
    requires j <= k <= |fights| && FightSpans(kept) == RelevantSpans(fights, participantID, j)
    ensures FightSpans(WithFights(kept, fights, participantID, j, k)) == RelevantSpans(fights, participantID, k)
    decreases k - j
  {
    hide WithFights, FightFrames, FightSpans;
    if j == k {
      NoFightYet(kept, fights, participantID, j);
    } else {
      WithFightsOnce(kept, fights, participantID, j, k - 1);
      OneMoreFight(kept, fights, participantID, j, k - 1);
      var with := WithFights(kept, fights, participantID, j, k - 1);
      FightSpansGrow(with, FightFrame(fights[k - 1], LastOf(with).areaName));
    }
  }

  /** Every relevant fight that was taken is kept in full, once, and in order; there are no other fights. */
  lemma {:induction false} FightsAreKeptOnce(frames: seq<Frame>, fights: seq<Fight>, participantID: int, i: nat)
    requires i <= |frames| && forall f <- frames :: f.activity != "fight"
    ensures FightSpans(Merged(frames, fights, participantID, i)) ==
            RelevantSpans(fights, participantID, Taken(frames, fights, i))
  {
    if i > 0 {
      FightsAreKeptOnce(frames, fights, participantID, i - 1);
      var j, k := Taken(frames, fights, i - 1), Taken(frames, fights, i);
      WithFightsOnce(Merged(frames, fights, participantID, i - 1), fights, participantID, j, k);
      FightSpansGrow(Met(frames, fights, participantID, i - 1), frames[i - 1]);
    }
  }

  /** Nothing that is kept is ever taken back, and so no death is lost. */
  lemma {:induction false} KeptStays(frames: seq<Frame>, fights: seq<Fight>, participantID: int, i: nat, n: nat)
    requires i < n <= |frames|
    ensures Met(frames, fights, participantID, i) <= Merged(frames, fights, participantID, n)
    ensures !Drops(LastOf(Met(frames, fights, participantID, i)), frames[i]) ==>
              frames[i] in Merged(frames, fights, participantID, n)
  {
    hide FightFrames, Taken;
    if i + 1 < n {
      KeptStays(frames, fights, participantID, i, n - 1);
    }
  }

  // ---------- Which frames are dropped ----------

  /** Where the frame kept last comes from. */
  datatype Origin = Start | OfFight(fight: nat) | OfFrame(frame: nat)

  /** The last relevant fight from the `j`th up to the `k`th. */
  ghost function LastRelevant(fights: seq<Fight>, participantID: int, j: nat, k: nat): (r: Option<nat>)
    requires j <= k <= |fights|
    ensures r.Some? ==> j <= r.value < k && IsRelevant(fights[r.value], participantID)
    ensures forall m :: j <= m < k && IsRelevant(fights[m], participantID) ==> r.Some? && m <= r.value
    decreases k - j
  {
    if j == k then None
    else if IsRelevant(fights[k - 1], participantID) then Some(k - 1)
    else LastRelevant(fights, participantID, j, k - 1)
  }

  ghost function MergedOrigin(frames: seq<Frame>, fights: seq<Fight>, participantID: int, i: nat): Origin
    requires i <= |frames|
    decreases i, 0
  {
    if i == 0 then Start
    else if Drops(LastOf(Met(frames, fights, participantID, i - 1)), frames[i - 1])
    then MetOrigin(frames, fights, participantID, i - 1)
    else OfFrame(i - 1)
  }

  ghost function MetOrigin(frames: seq<Frame>, fights: seq<Fight>, participantID: int, i: nat): Origin
    requires i < |frames|
    decreases i, 1
  {
    match LastRelevant(fights, participantID, Taken(frames, fights, i), Taken(frames, fights, i + 1))
    case Some(j) => OfFight(j)
    case None => MergedOrigin(frames, fights, participantID, i)
  }

  /** The frame kept last is what its origin says. */
  ghost predicate ComesFrom(last: Frame, o: Origin, frames: seq<Frame>, fights: seq<Fight>, participantID: int,
                            i: nat) {
    match o
    case Start => last == BASE
    case OfFight(j) => j < |fights| && IsRelevant(fights[j], participantID)
                       && last == FightFrame(fights[j], last.areaName)
    case OfFrame(m) => m < i && m < |frames| && last == frames[m]
  }

  lemma {:induction false} LastOfWithFights(kept: seq<Frame>, fights: seq<Fight>, participantID: int, j: nat, k: nat)
    requires j <= k <= |fights|
    ensures var last := LastOf(WithFights(kept, fights, participantID, j, k));
            match LastRelevant(fights, participantID, j, k)
            case None => last == LastOf(kept)
            case Some(m) => last == FightFrame(fights[m], last.areaName)
    decreases k - j
  {
    if j < k {
      OneMoreFight(kept, fights, participantID, j, k - 1);
      LastOfWithFights(kept, fights, participantID, j, k - 1);
    }
  }

  lemma {:induction false} OriginsAreRight(frames: seq<Frame>, fights: seq<Fight>, participantID: int, i: nat)
    requires i < |frames|
    ensures ComesFrom(
              LastOf(Met(frames, fights, participantID, i)), MetOrigin(frames, fights, participantID, i),
              frames, fights, participantID, i)
  {
    hide FightFrames, WithFights;
    LastOfWithFights(
      Merged(frames, fights, participantID, i), fights, participantID, Taken(frames, fights, i),
      Taken(frames, fights, i + 1));
    if i > 0 {
      OriginsAreRight(frames, fights, participantID, i - 1);
    }
  }

  /** Fight `j` is the last relevant one that begins no later than frame `i`, it goes on beyond that, and
      the player has not died since it began. */
  ghost predicate Covers(frames: seq<Frame>, fights: seq<Fight>, participantID: int, i: nat, j: nat)
    requires i < |frames| && j < |fights|
  {
    && IsRelevant(fights[j], participantID)
    && fights[j].begin <= frames[i].begin < fights[j].end
    && (forall k :: j < k < |fights| && IsRelevant(fights[k], participantID) ==> fights[k].begin > frames[i].begin)
    && (forall m :: 0 <= m < i && frames[m].activity == "dead" ==> frames[m].begin < fights[j].begin)
  }

  ghost predicate IsCovered(frames: seq<Frame>, fights: seq<Fight>, participantID: int, i: nat)
    requires i < |frames|
  {
    exists j: nat :: j < |fights| && Covers(frames, fights, participantID, i, j)
  }

  /** While a fight covers the frames, it stays the last that was kept. */
  lemma {:induction false} CoverIsLast(frames: seq<Frame>, fights: seq<Fight>, participantID: int, i: nat, j: nat)
    requires i < |frames| && j < |fights| && Chronological(frames) && FightsOrdered(fights)
    requires Covers(frames, fights, participantID, i, j)
    ensures MetOrigin(frames, fights, participantID, i) == OfFight(j)
  {
    hide Met, FightFrames, Chronological, FightsOrdered, Advance;
    TakenAreSeen(frames, fights, i + 1);
    SeenExactly(fights, Taken(frames, fights, i + 1), frames[i].begin, j);
    var last := LastRelevant(fights, participantID, Taken(frames, fights, i), Taken(frames, fights, i + 1));
    if last.Some? {
      SeenExactly(fights, Taken(frames, fights, i + 1), frames[i].begin, last.value);
    } else {
      assert i > 0;
      TakenAreSeen(frames, fights, i);
      SeenExactly(fights, Taken(frames, fights, i), frames[i - 1].begin, j);
      BeginsAscend(frames, i - 1, i);
      CoverIsLast(frames, fights, participantID, i - 1, j);
      OriginsAreRight(frames, fights, participantID, i - 1);
    }
  }

  /** No relevant fight after the one kept last has been taken. */
  lemma {:induction false} NoLaterRelevant(
    frames: seq<Frame>, fights: seq<Fight>, participantID: int, i: nat, j: nat, k: nat)
    requires i < |frames| && j < k < |fights| && IsRelevant(fights[k], participantID)
    requires MetOrigin(frames, fights, participantID, i) == OfFight(j)
    ensures j < Taken(frames, fights, i + 1) <= k
  {
    hide Met, FightFrames;
    var last := LastRelevant(fights, participantID, Taken(frames, fights, i), Taken(frames, fights, i + 1));
    if last.None? {
      NoLaterRelevant(frames, fights, participantID, i - 1, j, k);
    }
  }

  /** A fight that was kept last has had no later one, and nobody has died since. */
  lemma {:induction false} LastHasNoLater(frames: seq<Frame>, fights: seq<Fight>, participantID: int, i: nat, j: nat)
    requires i < |frames| && j < |fights| && Chronological(frames) && FightsOrdered(fights)
    requires MetOrigin(frames, fights, participantID, i) == OfFight(j)
    ensures j < Taken(frames, fights, i + 1)
    ensures forall k :: j < k < |fights| && IsRelevant(fights[k], participantID) ==> fights[k].begin > frames[i].begin
    ensures forall m :: 0 <= m < i && frames[m].activity == "dead" ==> frames[m].begin < fights[j].begin
  {
    hide Met, FightFrames;
    TakenAreSeen(frames, fights, i + 1);
    forall k | j < k < |fights| && IsRelevant(fights[k], participantID)
      ensures fights[k].begin > frames[i].begin
    {
      NoLaterRelevant(frames, fights, participantID, i, j, k);
      SeenExactly(fights, Taken(frames, fights, i + 1), frames[i].begin, k);
    }
    if i > 0 {
      TakenAreSeen(frames, fights, i);
      var last := LastRelevant(fights, participantID, Taken(frames, fights, i), Taken(frames, fights, i + 1));
      if last.None? {
        LastHasNoLater(frames, fights, participantID, i - 1, j);
      } else {
        SeenExactly(fights, Taken(frames, fights, i), frames[i - 1].begin, j);
        forall m | 0 <= m < i && frames[m].activity == "dead"
          ensures frames[m].begin < fights[j].begin
        {
          BeginsAscend(frames, m, i - 1);
        }
      }
    }
  }

  /** Exactly which frames are dropped: those, other than deaths, that begin during a relevant fight, unless
      a later fight has begun or the player has died since that fight began. */
  lemma DroppedExactly(frames: seq<Frame>, fights: seq<Fight>, participantID: int, i: nat)
    requires i < |frames| && Chronological(frames) && FightsOrdered(fights) && 0.0 <= frames[i].begin
    ensures Drops(LastOf(Met(frames, fights, participantID, i)), frames[i]) <==>
            frames[i].activity != "dead" && IsCovered(frames, fights, participantID, i)
  {
    hide Met, MetOrigin;
    OriginsAreRight(frames, fights, participantID, i);
    var o := MetOrigin(frames, fights, participantID, i);
    if o.OfFight? {
      LastHasNoLater(frames, fights, participantID, i, o.fight);
      TakenAreSeen(frames, fights, i + 1);
      SeenExactly(fights, Taken(frames, fights, i + 1), frames[i].begin, o.fight);
      if LastOf(Met(frames, fights, participantID, i)).end > frames[i].begin {
        assert Covers(frames, fights, participantID, i, o.fight);
      }
    }
    if j: nat :| j < |fights| && Covers(frames, fights, participantID, i, j) {
      CoverIsLast(frames, fights, participantID, i, j);
    }
  }

  // ---------- The order of what is kept ----------

  /** In order so far, and what comes next may begin at `time`. */
  ghost predicate AscendingTo(kept: seq<Frame>, time: real) {
    Ascending(kept) && (kept != [] ==> LastOf(kept).begin <= time)
  }

  lemma {:induction false} WithFightsAscends(kept: seq<Frame>, fights: seq<Fight>, participantID: int, j: nat, k: nat)
    requires j <= k <= |fights| && FightsOrdered(fights)
    requires if j < |fights| then AscendingTo(kept, fights[j].begin) else Ascending(kept)
    ensures var with := WithFights(kept, fights, participantID, j, k);
            if k < |fights| then AscendingTo(with, fights[k].begin) else Ascending(with)
    decreases k - j
  {
    hide FightFrames, WithFights, Ascending;
    if j == k {
      NoFightYet(kept, fights, participantID, j);
    } else {
      WithFightsAscends(kept, fights, participantID, j, k - 1);
      OneMoreFight(kept, fights, participantID, j, k - 1);
      var with := WithFights(kept, fights, participantID, j, k - 1);
      AscendingGrows(with, FightFrame(fights[k - 1], LastOf(with).areaName));
    }
  }

  /** What is kept last begins no later than the frame that comes up. */
  lemma {:induction false} LastBegan(frames: seq<Frame>, fights: seq<Fight>, participantID: int, i: nat)
    requires i < |frames| && Chronological(frames) && FightsOrdered(fights)
    ensures var met := Met(frames, fights, participantID, i);
            met != [] ==> LastOf(met).begin <= frames[i].begin
  {
    hide FightFrames;
    TakenAreSeen(frames, fights, i + 1);
    var kept := Merged(frames, fights, participantID, i);
    LastOfWithFights(kept, fights, participantID, Taken(frames, fights, i), Taken(frames, fights, i + 1));
    NothingFromNothing(kept, fights, participantID, Taken(frames, fights, i), Taken(frames, fights, i + 1));
    if i > 0 {
      LastBegan(frames, fights, participantID, i - 1);
      BeginsAscend(frames, i - 1, i);
    }
  }

  lemma {:induction false} NothingFromNothing(kept: seq<Frame>, fights: seq<Fight>, participantID: int, j: nat, k: nat)
    requires j <= k <= |fights|
    ensures LastRelevant(fights, participantID, j, k).None? ==> WithFights(kept, fights, participantID, j, k) == kept
    decreases k - j
  {
    hide FightFrames, WithFights;
    if j == k {
      NoFightYet(kept, fights, participantID, j);
    } else {
      NothingFromNothing(kept, fights, participantID, j, k - 1);
      OneMoreFight(kept, fights, participantID, j, k - 1);
    }
  }

  lemma AscendingGrows(kept: seq<Frame>, f: Frame)
    requires Ascending(kept) && f.begin <= f.end && (kept != [] ==> LastOf(kept).begin <= f.begin)
    ensures Ascending(kept + [f])
  {
  }

  lemma {:induction false} MergedAscends(frames: seq<Frame>, fights: seq<Fight>, participantID: int, i: nat)
    requires i <= |frames| && Chronological(frames) && FightsOrdered(fights)
    ensures var kept, j := Merged(frames, fights, participantID, i), Taken(frames, fights, i);
            if j < |fights| then AscendingTo(kept, fights[j].begin) else Ascending(kept)
  {
    hide FightFrames, WithFights, Ascending, Chronological, Advance;
    if i == 0 {
      NothingAscends();
    } else {
      MergedAscends(frames, fights, participantID, i - 1);
      var kept, met := Merged(frames, fights, participantID, i - 1), Met(frames, fights, participantID, i - 1);
      WithFightsAscends(kept, fights, participantID, Taken(frames, fights, i - 1), Taken(frames, fights, i));
      LastBegan(frames, fights, participantID, i - 1);
      FrameLasts(frames, i - 1);
      AscendingGrows(met, frames[i - 1]);
      TakenAreSeen(frames, fights, i);
    }
  }

  lemma NothingAscends()
    ensures Ascending([])
  {
  }

  lemma FrameLasts(frames: seq<Frame>, i: nat)
    requires Chronological(frames) && i < |frames|
    ensures frames[i].begin <= frames[i].end
  {
  }

  /** With ordered fights the frames stay in order and apart. */
  lemma FightingKeepsOrder(frames: seq<Frame>, fights: seq<Fight>, participantID: int)
    requires Chronological(frames) && FightsOrdered(fights)
    ensures Chronological(WithFighting(frames, fights, participantID))
  {
    MergedAscends(frames, fights, participantID, |frames|);
    CutIsChronological(Merged(frames, fights, participantID, |frames|));
  }

  /** A fight that begins after the last frame is lost. */
  lemma LateFightIsLost()
    ensures var farm := Frame("farm", "mid", 6.0, 8.0);
            WithFighting([farm], [Fight(10.0, 20.0, {1})], 1) == [farm]
  {
    var frames, fights := [Frame("farm", "mid", 6.0, 8.0)], [Fight(10.0, 20.0, {1})];
    assert Taken(frames, fights, 0) == 0 && Taken(frames, fights, 1) == 0;
    assert Merged(frames, fights, 1, 0) == [];
    assert Met(frames, fights, 1, 0) == [];
    assert Merged(frames, fights, 1, 1) == frames;
  }

  lemma BothFights(kept: seq<Frame>, fights: seq<Fight>)
    requires |fights| == 2 && IsRelevant(fights[0], 1) && IsRelevant(fights[1], 1)
    ensures WithFights(kept, fights, 1, 0, 2) ==
            kept + [FightFrame(fights[0], LastOf(kept).areaName), FightFrame(fights[1], LastOf(kept).areaName)]
  {
    hide FightFrames, WithFights;
    OneMoreFight(kept, fights, 1, 0, 0);
    OneMoreFight(kept, fights, 1, 0, 1);
  }

  lemma BothAreTaken(fights: seq<Fight>, time: real)
    requires |fights| == 2 && fights[0].begin <= time && fights[1].begin <= time
    ensures Advance(fights, 0, time) == 2
  {
    assert Advance(fights, 2, time) == 2 && Advance(fights, 1, time) == 2;
  }

  /** A fight that begins before the one recorded before it makes that one end before it begins. */
  lemma EarlyFightEndsTheOneBefore(fights: seq<Fight>)
    requires |fights| == 2 && fights[0].begin == 11.0 && fights[0].end == 13.0
             && fights[1].begin == 0.0 <= fights[1].end
    requires 1 in fights[0].participantIDs && 1 in fights[1].participantIDs
    ensures var r := WithFighting([Frame("farm", "mid", 30.0, 32.0)], fights, 1);
            r != [] && r[0] == Frame("fight", "base", 11.0, 0.0) && !Chronological(r)
  {
    hide WithFights, Advance, Cut, Chronological;
    var late := Frame("farm", "mid", 30.0, 32.0);
    var frames := [late];
    BothAreTaken(fights, 30.0);
    assert Taken(frames, fights, 1) == 2;
    BothFights([], fights);
    var kept := [FightFrame(fights[0], "base"), FightFrame(fights[1], "base")];
    assert Met(frames, fights, 1, 0) == kept;
    var merged := if Drops(kept[1], late) then kept else kept + frames;
    assert Merged(frames, fights, 1, 1) == merged;
    assert merged[0] == kept[0] && merged[1] == kept[1];
    CutTruncates(merged, 0);
    assert merged[0].begin > merged[1].begin;
    CutIsChronological(merged);
  }

  lemma CutTruncates(kept: seq<Frame>, k: nat)
    requires k < |kept|
    ensures Cut(kept)[k] == if k + 1 < |kept| then Truncate(kept[k], kept[k + 1].begin) else kept[k]
  {
  }

  /** Whether the player spent more than eight idle seconds in the jungle between two frames. */
  predicate Roamed(before: Frame, after: Frame) {
    before.areaName == "jungle" && after.areaName == "jungle" && after.begin - before.end > 8.0
  }

  function RoamFrame(before: Frame, after: Frame): Frame {
    Frame("roam", "jungle", before.end + 3.0, after.begin - 3.0)
  }

  /** The frames, with a roaming frame inside every idle stretch. */
  function WithRoaming(frames: seq<Frame>): seq<Frame> {
    if |frames| <= 1 then frames
    else
      var front, last := frames[..|frames| - 1], frames[|frames| - 1];
      var before := front[|front| - 1];
      WithRoaming(front) + (if Roamed(before, last) then [RoamFrame(before, last)] else []) + [last]
  }

  method AddRoaming(frames: seq<Frame>) returns (newFrames: seq<Frame>)
    ensures newFrames == WithRoaming(frames)
  {
    newFrames := [];
    for i := 0 to |frames|
      invariant newFrames == WithRoaming(frames[..i])
    {
      var frame := frames[i];
      assert frames[..i + 1][..i] == frames[..i];
      if i > 0 && frames[i - 1].areaName == "jungle" && frame.areaName == "jungle"
         && frame.begin - frames[i - 1].end > 8.0 {
        newFrames := newFrames + [Frame("roam", "jungle", frames[i - 1].end + 3.0, frame.begin - 3.0)];
      }
      newFrames := newFrames + [frame];
    }
    assert frames[..|frames|] == frames;
  }

  /** Roaming fills gaps only: no frame is changed or lost. */
  lemma {:induction false} RoamingAddsOnly(frames: seq<Frame>)
    ensures forall f <- WithRoaming(frames) :: f in frames || (f.activity == "roam" && f.end - f.begin > 2.0)
    ensures forall f <- frames :: f in WithRoaming(frames)
  {
    if |frames| > 1 {
      var front, last := frames[..|frames| - 1], frames[|frames| - 1];
      RoamingAddsOnly(front);
      forall f | f in frames
        ensures f in WithRoaming(frames)
      {
        assert f in front || f == last;
      }
    }
  }

  /** Every idle stretch of more than eight seconds in the jungle has roaming in it, three seconds from both ends, and
      there is none elsewhere. */
  lemma {:induction false} RoamingIsIdleness(frames: seq<Frame>, f: Frame)
    requires f !in frames
    ensures f in WithRoaming(frames) <==> exists i: nat :: IsIdleness(frames, i, f)
  {
    if |frames| > 1 {
      var n := |frames| - 1;
      var front := frames[..n];
      RoamingIsIdleness(front, f);
      forall i: nat
        ensures IsIdleness(frames, i, f) <==> IsIdleness(front, i, f) || (i == n - 1 && IsIdleness(frames, i, f))
      {
      }
      if f in WithRoaming(frames) && f !in WithRoaming(front) {
        assert IsIdleness(frames, n - 1, f);
      }
    }
  }

  ghost predicate IsIdleness(frames: seq<Frame>, i: nat, f: Frame) {
    && i + 1 < |frames| && frames[i].areaName == frames[i + 1].areaName == "jungle"
    && frames[i + 1].begin > frames[i].end + 8.0
    && f == Frame("roam", "jungle", frames[i].end + 3.0, frames[i + 1].begin - 3.0)
  }

  /** The frames stay in order and apart. */
  lemma {:induction false} RoamingKeepsOrder(frames: seq<Frame>)
    requires Chronological(frames)
    ensures Chronological(WithRoaming(frames))
    ensures frames != [] ==>
              WithRoaming(frames) != [] && WithRoaming(frames)[|WithRoaming(frames)| - 1] == frames[|frames| - 1]
  {
    if |frames| > 1 {
      var front, last := frames[..|frames| - 1], frames[|frames| - 1];
      RoamingKeepsOrder(front);
      var before := front[|front| - 1];
      var r := WithRoaming(front);
      assert before.end <= last.begin;
      if Roamed(before, last) {
        AppendChronological(r, RoamFrame(before, last));
        AppendChronological(r + [RoamFrame(before, last)], last);
      } else {
        AppendChronological(r, last);
      }
    }
  }

  /** Frames of less than a second are jitter. */
  function LongFrames(frames: seq<Frame>): seq<Frame> {
    if frames == [] then []
    else
      var front, last := frames[..|frames| - 1], frames[|frames| - 1];
      LongFrames(front) + (if last.end - last.begin < 1.0 then [] else [last])
  }

  lemma {:induction false} LongFramesAreLong(frames: seq<Frame>)
    ensures forall f :: f in LongFrames(frames) <==> f in frames && f.end - f.begin >= 1.0
  {
    if frames != [] {
      var front, last := frames[..|frames| - 1], frames[|frames| - 1];
      LongFramesAreLong(front);
      assert frames == front + [last];
    }
  }

  lemma {:induction false} LongFramesKeepOrder(frames: seq<Frame>)
    requires Chronological(frames)
    ensures Chronological(LongFrames(frames))
  {
    if frames != [] {
      var front, last := frames[..|frames| - 1], frames[|frames| - 1];
      LongFramesKeepOrder(front);
      LongFramesAreLong(front);
      var r := LongFrames(front);
      if r != [] {
        assert r[|r| - 1] in front;
      }
      if last.end - last.begin >= 1.0 {
        AppendChronological(r, last);
      }
    }
  }

  function TotalLength(frames: seq<Frame>): real {
    if frames == [] then 0.0
    else TotalLength(frames[..|frames| - 1]) + (frames[|frames| - 1].end - frames[|frames| - 1].begin)
  }

  /** Frames that do not overlap cannot last longer together than the time they span. */
  lemma {:induction false} TotalWithinSpan(frames: seq<Frame>)
    requires Chronological(frames) && frames != []
    ensures TotalLength(frames) <= frames[|frames| - 1].end - frames[0].begin
  {
    var front := frames[..|frames| - 1];
    if front != [] {
      TotalWithinSpan(front);
      assert front[|front| - 1].end <= frames[|frames| - 1].begin;
    } else {
      assert TotalLength(front) == 0.0;
    }
  }

  /** What is reported of a timeline once the fights are in. */
  function Report(frames: seq<Frame>, fights: seq<Fight>, participantID: int): seq<Frame> {
    LongFrames(WithRoaming(WithFighting(frames, fights, participantID)))
  }

  /** The frames of a player who arrives at 1 second and farms at 60, put together with two fights. */
  lemma FarmingAfterFights(fights: seq<Fight>)
    requires |fights| == 2 && fights[0].begin == 11.0 && fights[0].end == 13.0
    requires fights[1].begin == 0.0 && fights[1].end == 60.0
    requires 1 in fights[0].participantIDs && 1 in fights[1].participantIDs
    ensures WithFighting([Frame("", "mid", 1.0, 1.0), Frame("farm", "mid", 60.0, 62.0)], fights, 1) ==
            [Frame("", "mid", 1.0, 1.0), Frame("fight", "mid", 11.0, 0.0), Frame("fight", "mid", 0.0, 60.0),
             Frame("farm", "mid", 60.0, 62.0)]
  {
    hide WithFights, Advance, Cut;
    var first, last := Frame("", "mid", 1.0, 1.0), Frame("farm", "mid", 60.0, 62.0);
    var frames := [first, last];
    NoneIsTaken(fights, 1.0);
    BothAreTaken(fights, 60.0);
    assert Taken(frames, fights, 1) == 0 && Taken(frames, fights, 2) == 2;
    NoFightYet([], fights, 1, 0);
    assert Met(frames, fights, 1, 0) == [];
    assert Merged(frames, fights, 1, 1) == [first];
    BothFights([first], fights);
    var kept := [first, FightFrame(fights[0], "mid"), FightFrame(fights[1], "mid"), last];
    assert Met(frames, fights, 1, 1) == kept[..3];
    assert Merged(frames, fights, 1, 2) == kept;
    CutTruncates(kept, 0);
    CutTruncates(kept, 1);
    CutTruncates(kept, 2);
    CutTruncates(kept, 3);
    assert Cut(kept) == [Cut(kept)[0], Cut(kept)[1], Cut(kept)[2], Cut(kept)[3]];
  }

  lemma NoneIsTaken(fights: seq<Fight>, time: real)
    requires fights != [] && fights[0].begin > time
    ensures Advance(fights, 0, time) == 0
  {
  }

  /** The earlier fight ends before it begins, and so it is not reported at all. */
  lemma OnlyOneFightIsReported(fights: seq<Fight>)
    requires |fights| == 2 && fights[0].begin == 11.0 && fights[0].end == 13.0
    requires fights[1].begin == 0.0 && fights[1].end == 60.0
    requires 1 in fights[0].participantIDs && 1 in fights[1].participantIDs
    ensures Report([Frame("", "mid", 1.0, 1.0), Frame("farm", "mid", 60.0, 62.0)], fights, 1) ==
            [Frame("fight", "mid", 0.0, 60.0), Frame("farm", "mid", 60.0, 62.0)]
  {
    hide WithFighting;
    FarmingAfterFights(fights);
    var frames := [Frame("", "mid", 1.0, 1.0), Frame("fight", "mid", 11.0, 0.0), Frame("fight", "mid", 0.0, 60.0),
                   Frame("farm", "mid", 60.0, 62.0)];
    NothingToRoam(frames);
    assert frames[..3][..2][..1] == [frames[0]] && frames[..3][..2] == frames[..2];
    assert LongFrames(frames[..1][..0]) == [] && LongFrames(frames[..1]) == [];
    assert frames[..2][..1] == frames[..1] && LongFrames(frames[..2]) == [];
    assert frames[..3][..2] == frames[..2] && LongFrames(frames[..3]) == [frames[2]];
    assert LongFrames(frames) == [frames[2], frames[3]];
  }

  lemma {:induction false} NothingToRoam(frames: seq<Frame>)
    requires forall f <- frames :: f.areaName != "jungle"
    ensures WithRoaming(frames) == frames
  {
    if |frames| > 1 {
      NothingToRoam(frames[..|frames| - 1]);
    }
  }

  // ---------- The state machine ----------

  datatype Event =
    | Attack(sec: real, targetID: int, targetType: string)
    | DamageTaken(sec: real, attackerID: int, attackerType: string)
    | StateUpdate(sec: real, areaName: string, health: real)
    | WardPlaced(sec: real)
    | Death(sec: real)

  ghost predicate TimeOrdered(events: seq<Event>) {
    forall i, j :: 0 <= i < j < |events| ==> events[i].sec <= events[j].sec
  }

  predicate IsBaronOrHerald(id: int) {
    id == MONSTER_RIFT_HERALD || id == MONSTER_BARON
  }

  predicate IsDragon(id: int) {
    id == MONSTER_DRAGON_ELEMENTAL || id == MONSTER_DRAGON_ELDER
  }

  datatype Doing = Doing(activity: string, seconds: real)

  /** What an attack says the player is doing. Attacks on enemy champions are left to the fights. */
  function DoingOnAttack(teamID: int, targetID: int, targetType: string): Option<Doing> {
    if TeamID(targetID) > 0 && TeamID(targetID) != teamID then None
    else if targetType == ACTOR_TURRET then Some(Doing("siege", 5.0))
    else if IsBaronOrHerald(targetID) then Some(Doing("baron", 5.0))
    else if IsDragon(targetID) then Some(Doing("dragon", 5.0))
    else if targetType == ACTOR_MINION || targetType == "" then Some(Doing("farm", 2.0))
    else None
  }

  /** What taken damage says the player is doing; here monsters come before turrets. */
  function DoingOnDamage(attackerID: int, attackerType: string): Option<Doing> {
    if TeamID(attackerID) > 0 then None
    else if IsBaronOrHerald(attackerID) then Some(Doing("baron", 5.0))
    else if IsDragon(attackerID) then Some(Doing("dragon", 5.0))
    else if attackerType == ACTOR_TURRET then Some(Doing("siege", 5.0))
    else None
  }

  /** An empty frame that marks the arrival in a new area; recalling to base leaves no frame. */
  function WithArrival(frames: seq<Frame>, activity: string, oldArea: string, newArea: string, sec: real): seq<Frame> {
    if newArea == oldArea || newArea == "base" then frames
    else TruncateLast(frames, sec) + [Frame(activity, newArea, sec, sec)]
  }

  /** What is known of a player at some moment. */
  datatype Timeline = Timeline(lastAreaName: string, lastActivity: string, isDead: bool, frames: seq<Frame>)

  const START := Timeline("", "", false, [])

  /** The player starts doing something, if anything, where he is. */
  function Did(t: Timeline, doing: Option<Doing>, sec: real): Timeline {
    match doing
    case None => t
    case Some(d) =>
      var f := Frame(d.activity, t.lastAreaName, sec, sec + d.seconds);
      t.(frames := WithFrame(t.frames, f), lastActivity := d.activity)
  }

  function Moved(t: Timeline, areaName: string, sec: real): Timeline {
    t.(frames := WithArrival(t.frames, t.lastActivity, t.lastAreaName, areaName, sec),
    lastAreaName := if areaName == "base" then t.lastAreaName else areaName,
    lastActivity := if areaName == "base" && areaName != t.lastAreaName then "" else t.lastActivity)
  }

  function AfterEvent(t: Timeline, e: Event, teamID: int): Timeline {
    match e
    case Attack(sec, targetID, targetType) => Did(t, DoingOnAttack(teamID, targetID, targetType), sec)
    case DamageTaken(sec, attackerID, attackerType) => Did(t, DoingOnDamage(attackerID, attackerType), sec)
    case WardPlaced(sec) => Did(t, Some(Doing("ward", 5.0)), sec)
    case Death(sec) => if t.isDead then t else Did(t.(isDead := true), Some(Doing("dead", 120.0)), sec)
    case StateUpdate(sec, areaName, health) =>
      Moved(if t.isDead && health > 0.0 then Did(t.(isDead := false), Some(Doing("", 0.1)), sec) else t, areaName, sec)
  }

  /** The timeline of a whole event stream. */
  ghost function AfterEvents(events: seq<Event>, teamID: int): Timeline {
    if events == [] then START
    else AfterEvent(AfterEvents(events[..|events| - 1], teamID), events[|events| - 1], teamID)
  }

  // ---------- What a timeline is made of ----------

  ghost predicate IsTimeline(t: Timeline, now: real) {
    Chronological(t.frames) && Started(t.frames, now)
  }

  lemma DidKeepsOrder(t: Timeline, doing: Option<Doing>, sec: real)
    requires IsTimeline(t, sec) && (doing.Some? ==> doing.value.seconds >= 0.0)
    ensures IsTimeline(Did(t, doing, sec), sec)
  {
    hide Chronological, Started, WithFrame;
    if doing.Some? {
      WithFrameChronological(t.frames, Frame(doing.value.activity, t.lastAreaName, sec, sec + doing.value.seconds));
    }
  }

  lemma MovedKeepsOrder(t: Timeline, areaName: string, sec: real)
    requires IsTimeline(t, sec)
    ensures IsTimeline(Moved(t, areaName, sec), sec)
  {
    hide Chronological;
    TruncateLastChronological(t.frames, sec);
    AppendChronological(TruncateLast(t.frames, sec), Frame(t.lastActivity, areaName, sec, sec));
  }

  lemma LaterIsTimeline(t: Timeline, before: real, now: real)
    requires IsTimeline(t, before) && before <= now
    ensures IsTimeline(t, now)
  {
  }

  /** In a stream in order of time the frames are in order and apart. */
  lemma {:induction false} EventsKeepOrder(events: seq<Event>, teamID: int, now: real)
    requires TimeOrdered(events) && (events != [] ==> events[|events| - 1].sec <= now)
    ensures IsTimeline(AfterEvents(events, teamID), now)
  {
    hide IsTimeline, Did, Moved, DoingOnAttack, DoingOnDamage;
    if events == [] {
      NothingIsTimeline(now);
    } else {
      var e := events[|events| - 1];
      var t := AfterEvents(events[..|events| - 1], teamID);
      EventsKeepOrder(events[..|events| - 1], teamID, e.sec);
      EventKeepsOrder(t, e, teamID);
      LaterIsTimeline(AfterEvent(t, e, teamID), e.sec, now);
    }
  }

  lemma EventKeepsOrder(t: Timeline, e: Event, teamID: int)
    requires IsTimeline(t, e.sec)
    ensures IsTimeline(AfterEvent(t, e, teamID), e.sec)
  {
    hide Did, Moved, Chronological, Started;
    match e
    case Attack(sec, targetID, targetType) => DidKeepsOrder(t, DoingOnAttack(teamID, targetID, targetType), sec);
    case DamageTaken(sec, attackerID, attackerType) => DidKeepsOrder(t, DoingOnDamage(attackerID, attackerType), sec);
    case WardPlaced(sec) => DidKeepsOrder(t, Some(Doing("ward", 5.0)), sec);
    case Death(sec) => DidKeepsOrder(t.(isDead := true), Some(Doing("dead", 120.0)), sec);
    case StateUpdate(sec, areaName, health) =>
      var alive := Did(t.(isDead := false), Some(Doing("", 0.1)), sec);
      DidKeepsOrder(t.(isDead := false), Some(Doing("", 0.1)), sec);
      MovedKeepsOrder(if t.isDead && health > 0.0 then alive else t, areaName, sec);
  }

  lemma NothingIsTimeline(now: real)
    ensures IsTimeline(START, now)
  {
  }

  /** Nothing that a player is recorded to do himself is a fight. */
  ghost predicate FightsNowhere(t: Timeline) {
    t.lastActivity != "fight" && forall i :: 0 <= i < |t.frames| ==> t.frames[i].activity != "fight"
  }

  lemma {:induction false} EventsAreNoFights(events: seq<Event>, teamID: int)
    ensures FightsNowhere(AfterEvents(events, teamID))
  {
    if events != [] {
      EventsAreNoFights(events[..|events| - 1], teamID);
      EventIsNoFight(AfterEvents(events[..|events| - 1], teamID), events[|events| - 1], teamID);
    }
  }

  lemma DidNoFight(t: Timeline, doing: Option<Doing>, sec: real)
    requires FightsNowhere(t) && (doing.Some? ==> doing.value.activity != "fight")
    ensures FightsNowhere(Did(t, doing, sec))
  {
  }

  lemma MovedNoFight(t: Timeline, areaName: string, sec: real)
    requires FightsNowhere(t)
    ensures FightsNowhere(Moved(t, areaName, sec))
  {
  }

  lemma DoingsAreNoFights(teamID: int, id: int, kind: string)
    ensures var doing := DoingOnAttack(teamID, id, kind); doing.Some? ==> doing.value.activity != "fight"
    ensures var doing := DoingOnDamage(id, kind); doing.Some? ==> doing.value.activity != "fight"
  {
    assert "fight"[1] == 'i' && "siege"[0] == 's' && "farm"[0] == 'f' && |"farm"| == 4;
  }

  lemma EventIsNoFight(t: Timeline, e: Event, teamID: int)
    requires FightsNowhere(t)
    ensures FightsNowhere(AfterEvent(t, e, teamID))
  {
    hide Did, Moved, DoingOnAttack, DoingOnDamage;
    match e
    case Attack(sec, targetID, targetType) =>
      DoingsAreNoFights(teamID, targetID, targetType);
      DidNoFight(t, DoingOnAttack(teamID, targetID, targetType), sec);
    case DamageTaken(sec, attackerID, attackerType) =>
      DoingsAreNoFights(teamID, attackerID, attackerType);
      DidNoFight(t, DoingOnDamage(attackerID, attackerType), sec);
    case WardPlaced(sec) => DidNoFight(t, Some(Doing("ward", 5.0)), sec);
    case Death(sec) => DidNoFight(t.(isDead := true), Some(Doing("dead", 120.0)), sec);
    case StateUpdate(sec, areaName, health) =>
      var alive := Did(t.(isDead := false), Some(Doing("", 0.1)), sec);
      DidNoFight(t.(isDead := false), Some(Doing("", 0.1)), sec);
      MovedNoFight(if t.isDead && health > 0.0 then alive else t, areaName, sec);
  }

  /** Of the fights of a match those that were taken are kept, each once; with fights in order, these are the ones
      that begin no later than the last frame that was recorded. */
  lemma {:induction false} FightsOfTheMatch(events: seq<Event>, fights: seq<Fight>, participantID: int)
    requires TimeOrdered(events)
    ensures var frames := AfterEvents(events, TeamID(participantID)).frames;
            var taken := Taken(frames, fights, |frames|);
            && FightSpans(Merged(frames, fights, participantID, |frames|)) ==
               RelevantSpans(fights, participantID, taken)
            && (FightsOrdered(fights) && frames != [] ==>
                  forall k :: 0 <= k < |fights| ==> (k < taken <==> fights[k].begin <= frames[|frames| - 1].begin))
  {
    hide Taken, Merged, FightSpans, RelevantSpans, AfterEvents;
    var teamID := TeamID(participantID);
    var t := AfterEvents(events, teamID);
    EventsKeepOrder(events, teamID, if events == [] then 0.0 else events[|events| - 1].sec);
    EventsAreNoFights(events, teamID);
    FightsAreKeptOnce(t.frames, fights, participantID, |t.frames|);
    if FightsOrdered(fights) && t.frames != [] {
      forall k | 0 <= k < |fights|
        ensures k < Taken(t.frames, fights, |t.frames|) <==> fights[k].begin <= t.frames[|t.frames| - 1].begin
      {
        LateFightsAreLost(t.frames, fights, k);
      }
    }
  }

  lemma {:induction false} SpanOf(kept: seq<Frame>, f: Frame)
    requires f in kept && f.activity == "fight"
    ensures (f.begin, f.end) in FightSpans(kept)
  {
    if f in kept[..|kept| - 1] {
      SpanOf(kept[..|kept| - 1], f);
    } else {
      assert f == kept[|kept| - 1];
    }
  }

  lemma {:induction false} SpanIsOfFight(fights: seq<Fight>, participantID: int, j: nat, span: (real, real))
    returns (k: nat)
    requires j <= |fights| && span in RelevantSpans(fights, participantID, j)
    ensures k < |fights| && IsRelevant(fights[k], participantID) && span == (fights[k].begin, fights[k].end)
  {
    if span in RelevantSpans(fights, participantID, j - 1) {
      k := SpanIsOfFight(fights, participantID, j - 1, span);
    } else {
      k := j - 1;
    }
  }

  lemma CutOf(kept: seq<Frame>, f: Frame) returns (i: nat)
    requires f in Cut(kept)
    ensures i < |kept| && kept[i].activity == f.activity && kept[i].begin == f.begin && f.end <= kept[i].end
  {
    i :| 0 <= i < |kept| && Cut(kept)[i] == f;
  }

  /** Every fight that is reported is one of the match the player was in, and ends no later. */
  lemma {:induction false} ReportedFightsAreRecorded(events: seq<Event>, fights: seq<Fight>, participantID: int,
                                                     f: Frame)
    returns (k: nat)
    requires TimeOrdered(events) && f.activity == "fight"
    requires f in Report(AfterEvents(events, TeamID(participantID)).frames, fights, participantID)
    ensures k < |fights| && IsRelevant(fights[k], participantID) && f.begin == fights[k].begin && f.end <= fights[k].end
  {
    hide Taken, Merged, FightSpans, RelevantSpans, AfterEvents, Cut, LongFrames, WithRoaming;
    var frames := AfterEvents(events, TeamID(participantID)).frames;
    var kept := Merged(frames, fights, participantID, |frames|);
    LongFramesAreLong(WithRoaming(Cut(kept)));
    RoamingAddsOnly(Cut(kept));
    var i := CutOf(kept, f);
    SpanOf(kept, kept[i]);
    FightsOfTheMatch(events, fights, participantID);
    k := SpanIsOfFight(fights, participantID, Taken(frames, fights, |frames|), (kept[i].begin, kept[i].end));
  }

  class TimeManagementState {
    const participantID: int
    const teamID: int
    var lastAreaName: string
    var lastActivity: string
    var isDead: bool
    var frames: seq<Frame>

    constructor (participantID: int)
      ensures this.participantID == participantID && teamID == TeamID(participantID) && Now() == START
    {
      this.participantID, teamID := participantID, TeamID(participantID);
      lastAreaName, lastActivity, isDead, frames := "", "", false, [];
    }

    ghost function Now(): Timeline
      reads this
    {
      Timeline(lastAreaName, lastActivity, isDead, frames)
    }

    /** The frames recorded by the time `now` are in order and have begun. */
    ghost predicate Valid(now: real)
      reads this
    {
      Chronological(frames) && Started(frames, now)
    }

    method Activity(activity: string, start: real, duration: real)
      requires Valid(start) && duration >= 0.0
      modifies `frames, `lastActivity
      ensures Valid(start)
      ensures Now() == Did(old(Now()), Some(Doing(activity, duration)), start)
    {
      var f := Frame(activity, lastAreaName, start, start + duration);
      WithFrameChronological(frames, f);
      if |frames| > 0 {
        var n := |frames| - 1;
        frames := frames[n := Truncate(frames[n], start)];
      }
      if |frames| > 0 && CanMerge(frames[|frames| - 1], f) {
        var n := |frames| - 1;
        frames := frames[n := frames[n].(end := f.end)];
      } else {
        frames := frames + [f];
      }
      lastActivity := activity;
    }

    method Area(areaName: string, start: real)
      requires Valid(start)
      modifies `frames, `lastAreaName, `lastActivity
      ensures Valid(start)
      ensures Now() == Moved(old(Now()), areaName, start)
    {
      if areaName == lastAreaName {
        return;
      } else if areaName == "base" {
        lastActivity := "";
        return;
      }
      TruncateLastChronological(frames, start);
      if |frames| > 0 {
        var n := |frames| - 1;
        frames := frames[n := Truncate(frames[n], start)];
      }
      var f := Frame(lastActivity, areaName, start, start);
      AppendChronological(frames, f);
      frames := frames + [f];
      lastAreaName := areaName;
    }

    method AddAttack(sec: real, targetID: int, targetType: string)
      requires Valid(sec)
      modifies `frames, `lastActivity
      ensures Valid(sec)
      ensures Now() == AfterEvent(old(Now()), Attack(sec, targetID, targetType), teamID)
    {
      var vicTeam := TeamID(targetID);
      if vicTeam > 0 && vicTeam != teamID {
        return;
      } else if targetType == ACTOR_TURRET {
        Activity("siege", sec, 5.0);
      } else if IsBaronOrHerald(targetID) {
        Activity("baron", sec, 5.0);
      } else if IsDragon(targetID) {
        Activity("dragon", sec, 5.0);
      } else if targetType == ACTOR_MINION || targetType == "" {
        Activity("farm", sec, 2.0);
      }
    }

    method AddDamage(sec: real, attackerID: int, attackerType: string)
      requires Valid(sec)
      modifies `frames, `lastActivity
      ensures Valid(sec)
      ensures Now() == AfterEvent(old(Now()), DamageTaken(sec, attackerID, attackerType), teamID)
    {
      if TeamID(attackerID) > 0 {
      } else if IsBaronOrHerald(attackerID) {
        Activity("baron", sec, 5.0);
      } else if IsDragon(attackerID) {
        Activity("dragon", sec, 5.0);
      } else if attackerType == ACTOR_TURRET {
        Activity("siege", sec, 5.0);
      }
    }

    method AddDeath(sec: real)
      requires Valid(sec)
      modifies `frames, `lastActivity, `isDead
      ensures Valid(sec)
      ensures Now() == AfterEvent(old(Now()), Death(sec), teamID)
    {
      if !isDead {
        isDead := true;
        Activity("dead", sec, 120.0);
      }
    }

    method AddStateUpdate(sec: real, areaName: string, health: real)
      requires Valid(sec)
      modifies this
      ensures Valid(sec)
      ensures Now() == AfterEvent(old(Now()), StateUpdate(sec, areaName, health), teamID)
    {
      hide Chronological, Started;
      if isDead && health > 0.0 {
        isDead := false;
        Activity("", sec, 0.1);
      }
      Area(areaName, sec);
    }

    method AddWard(sec: real)
      requires Valid(sec)
      modifies `frames, `lastActivity
      ensures Valid(sec)
      ensures Now() == AfterEvent(old(Now()), WardPlaced(sec), teamID)
    {
      Activity("ward", sec, 5.0);
    }

    method AddEvent(e: Event)
      requires Valid(e.sec)
      modifies this
      ensures Valid(e.sec)
      ensures Now() == AfterEvent(old(Now()), e, teamID)
    {
      match e
      case Attack(sec, targetID, targetType) => AddAttack(sec, targetID, targetType);
      case DamageTaken(sec, attackerID, attackerType) => AddDamage(sec, attackerID, attackerType);
      case StateUpdate(sec, areaName, health) => AddStateUpdate(sec, areaName, health);
      case WardPlaced(sec) => AddWard(sec);
      case Death(sec) => AddDeath(sec);
    }

    method AddSupplemental(fights: seq<Fight>)
      modifies `frames
      ensures frames == WithRoaming(WithFighting(old(frames), fights, participantID))
      ensures Chronological(old(frames)) && FightsOrdered(fights) ==> Chronological(frames)
    {
      hide Chronological;
      if Chronological(frames) && FightsOrdered(fights) {
        FightingKeepsOrder(frames, fights, participantID);
        RoamingKeepsOrder(WithFighting(frames, fights, participantID));
      }
      frames := AddFighting(frames, fights, participantID);
      frames := AddRoaming(frames);
    }

    method AllFrames() returns (res: seq<Frame>)
      ensures res == LongFrames(frames)
      ensures Chronological(frames) ==> Chronological(res)
      ensures forall f <- res :: f.end - f.begin >= 1.0
    {
      res := [];
      for i := 0 to |frames|
        invariant res == LongFrames(frames[..i])
      {
        assert frames[..i + 1][..i] == frames[..i];
        if frames[i].end - frames[i].begin < 1.0 {
          continue;
        }
        res := res + [frames[i]];
      }
      assert frames[..|frames|] == frames;
      if Chronological(frames) {
        LongFramesKeepOrder(frames);
      }
      LongFramesAreLong(frames);
    }
  }

  /** From a whole event stream to the reported frames, which are determined by the events and the fights.
      With ordered fights they are in order, apart from each other, at least a second long, and together no
      longer than the time from the first to the last. */
  method TimeDetail(participantID: int, events: seq<Event>, fights: seq<Fight>) returns (res: seq<Frame>)
    requires TimeOrdered(events)
    ensures res == Report(AfterEvents(events, TeamID(participantID)).frames, fights, participantID)
    ensures forall f <- res :: f.end - f.begin >= 1.0
    ensures FightsOrdered(fights) ==> Chronological(res)
    ensures FightsOrdered(fights) && res != [] ==> TotalLength(res) <= res[|res| - 1].end - res[0].begin
  {
    hide Chronological, AfterEvent, WithFighting, FightsOrdered;
    var t := new TimeManagementState(participantID);
    NothingStarted();
    for i := 0 to |events|
      invariant Chronological(t.frames)
      invariant fresh(t) && t.teamID == TeamID(participantID) && t.participantID == participantID
      invariant i < |events| ==> t.Valid(events[i].sec)
      invariant t.Now() == AfterEvents(events[..i], TeamID(participantID))
    {
      assert events[..i + 1][..i] == events[..i];
      t.AddEvent(events[i]);
    }
    assert events[..|events|] == events;
    t.AddSupplemental(fights);
    res := t.AllFrames();
    if FightsOrdered(fights) && res != [] {
      TotalWithinSpan(res);
    }
  }

  lemma NothingStarted()
    ensures Chronological([]) && forall now :: Started([], now)
  {
  }
}
