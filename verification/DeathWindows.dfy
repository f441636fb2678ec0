/** The share of recent time that a player was dead, once a minute (lolstats-master/generate/match_detail.go). */
module DeathWindows {
  import opened Basics
  import opened Wrappers

  const INTERVAL := 60.0
  const LOOKBACK := 300.0

  datatype Death = Death(start: real, end: real)

  datatype TimePercent = TimePercent(time: real, percent: real)

  /** How much longer a death takes once a number of minutes has passed. */
  function Extra(base: real, minutes: real, after: real, rate: real): (t: real)
    requires 0.0 <= base && 0.0 <= rate
    ensures 0.0 <= t
  {
    if minutes > after then Times(Times(base / 100.0, minutes - after) * 2.0, rate) else 0.0
  }

  function Times(x: real, y: real): (r: real)
    requires 0.0 <= x && 0.0 <= y
    ensures 0.0 <= r
  {
    x * y
  }

  /** When a player of the given level who dies at some moment comes back. */
  function DeathEnd(seconds: real, level: nat): (end: real)
    ensures seconds + level as real * 2.5 + 7.5 <= end
  {
    var base := level as real * 2.5 + 7.5;
    var minutes := seconds / 60.0;
    seconds +
    if minutes > 53.5 then base * 1.5
    else base + Extra(base, minutes, 15.0, 0.375) + Extra(base, minutes, 30.0, 0.2) + Extra(base, minutes, 45.0, 1.45)
  }

  function BaseOf(level: nat): real {
    level as real * 2.5 + 7.5
  }

  /** By how much of the base a death at some minute is longer than the base: not at all in the first 15 minutes,
      three quarters of a percent for each of the next 15, a little more than one percent for each of the 15 after
      these, four percent for each one later, and after 53.5 minutes a flat half. */
  function Longer(minutes: real): real {
    if minutes <= 15.0 then 0.0
    else if minutes <= 30.0 then 0.0075 * (minutes - 15.0)
    else if minutes <= 45.0 then 0.1125 + 0.0115 * (minutes - 30.0)
    else if minutes <= 53.5 then 0.285 + 0.0405 * (minutes - 45.0)
    else 0.5
  }

  lemma DeathLasts(seconds: real, level: nat)
    ensures DeathEnd(seconds, level) - seconds == BaseOf(level) * (1.0 + Longer(seconds / 60.0))
  {
    hide Extra, Longer;
    var base, minutes := BaseOf(level), seconds / 60.0;
    ExtraIs(base, minutes, 15.0, 0.375);
    ExtraIs(base, minutes, 30.0, 0.2);
    ExtraIs(base, minutes, 45.0, 1.45);
    var x, y, z := Late(minutes, 15.0), Late(minutes, 30.0), Late(minutes, 45.0);
    LongerIs(minutes);
    assert base * (0.0075 * x) + base * (0.004 * y) + base * (0.029 * z) == base * (0.0075 * x + 0.004 * y + 0.029 * z);
  }

  /** The minutes that have passed after some minute. */
  function Late(minutes: real, after: real): (r: real)
    ensures 0.0 <= r
  {
    Max(0.0, minutes - after)
  }

  lemma ExtraIs(base: real, minutes: real, after: real, rate: real)
    requires 0.0 <= base && 0.0 <= rate
    ensures Extra(base, minutes, after, rate) == base * (rate / 50.0 * Late(minutes, after))
  {
    var late := Late(minutes, after);
    assert base / 100.0 * late * 2.0 * rate == base * (rate / 50.0 * late);
  }

  lemma LongerIs(minutes: real)
    ensures minutes <= 53.5 ==>
              Longer(minutes) ==
              0.0075 * Late(minutes, 15.0) + 0.004 * Late(minutes, 30.0) + 0.029 * Late(minutes, 45.0)
    ensures 53.5 < minutes ==> Longer(minutes) == 0.5
  {
  }

  lemma SmallerFactor(base: real, x: real, y: real)
    requires base > 0.0
    ensures base * (1.0 + x) <= base * (1.0 + y) <==> x <= y
  {
    assert base * (1.0 + y) - base * (1.0 + x) == base * (y - x);
    assert y > x ==> base * (y - x) > 0.0;
    assert y < x ==> base * (y - x) < 0.0;
  }

  /** Deaths take longer as the match goes on, with one exception: after 53.5 minutes they are shorter again than
      they were from somewhat past the fiftieth on. */
  lemma LaterDeathsAreLonger(earlier: real, later: real, level: nat)
    requires earlier <= later
    ensures DeathEnd(earlier, level) - earlier <= DeathEnd(later, level) - later <==>
            !(earlier / 60.0 <= 53.5 < later / 60.0 && 0.0405 * (earlier / 60.0 - 45.0) > 0.215)
  {
    hide DeathEnd, Longer;
    DeathLasts(earlier, level);
    DeathLasts(later, level);
    SmallerFactor(BaseOf(level), Longer(earlier / 60.0), Longer(later / 60.0));
    LongerGrows(earlier / 60.0, later / 60.0);
  }

  lemma LongerGrows(earlier: real, later: real)
    requires earlier <= later
    ensures Longer(earlier) <= Longer(later) <==> !(earlier <= 53.5 < later && 0.0405 * (earlier - 45.0) > 0.215)
  {
  }

  // ---------- Exact dead time ----------

  /** How much of a death lies between two moments. */
  function Overlap(d: Death, from: real, to: real): (t: real)
    ensures 0.0 <= t
  {
    Max(0.0, Min(to, d.end) - Max(from, d.start))
  }

  ghost function DeadTime(deaths: seq<Death>, from: real, to: real): (t: real)
    ensures 0.0 <= t
  {
    if deaths == [] then 0.0 else Overlap(deaths[0], from, to) + DeadTime(deaths[1..], from, to)
  }

  /** In the order in which they happened. */
  ghost predicate Ordered(deaths: seq<Death>) {
    forall i, j :: 0 <= i < j < |deaths| ==> deaths[i].start <= deaths[j].start
  }

  /** One after the other: nobody dies while dead. */
  ghost predicate Disjoint(deaths: seq<Death>) {
    && (forall d <- deaths :: d.start <= d.end)
    && forall i, j :: 0 <= i < j < |deaths| ==> deaths[i].end <= deaths[j].start
  }

  lemma {:induction false} LateDeathsDoNotCount(deaths: seq<Death>, from: real, to: real)
    requires forall d <- deaths :: to <= d.start
    ensures DeadTime(deaths, from, to) == 0.0
  {
    if deaths != [] {
      LateDeathsDoNotCount(deaths[1..], from, to);
    }
  }

  lemma {:induction false} DeadTimeSplits(first: seq<Death>, second: seq<Death>, from: real, to: real)
    ensures DeadTime(first + second, from, to) == DeadTime(first, from, to) + DeadTime(second, from, to)
  {
    if first == [] {
      assert first + second == second;
    } else {
      assert (first + second)[1..] == first[1..] + second;
      DeadTimeSplits(first[1..], second, from, to);
    }
  }

  /** Dead time adds up over adjacent stretches of time. */
  lemma {:induction false} DeadTimeAdds(deaths: seq<Death>, from: real, mid: real, to: real)
    requires from <= mid <= to && forall d <- deaths :: d.start <= d.end
    ensures DeadTime(deaths, from, to) == DeadTime(deaths, from, mid) + DeadTime(deaths, mid, to)
  {
    if deaths != [] {
      DeadTimeAdds(deaths[1..], from, mid, to);
      assert Overlap(deaths[0], from, to) == Overlap(deaths[0], from, mid) + Overlap(deaths[0], mid, to);
    }
  }

  /** Nobody is dead for longer than the time there is. */
  lemma {:induction false} DeadTimeFits(deaths: seq<Death>, from: real, to: real)
    requires Disjoint(deaths) && from <= to
    ensures DeadTime(deaths, from, to) <= to - from
  {
    if deaths != [] {
      var first, rest := deaths[0], deaths[1..];
      var mid := Min(to, Max(from, first.end));
      DeadTimeAdds(rest, from, mid, to);
      assert DeadTime(rest, from, mid) == 0.0 by {
        forall d | d in rest
          ensures mid <= d.start || mid == from
        {
        }
        BeforeTheRest(rest, from, mid);
      }
      DeadTimeFits(rest, mid, to);
    }
  }

  lemma {:induction false} BeforeTheRest(deaths: seq<Death>, from: real, to: real)
    requires forall d <- deaths :: to <= d.start || to == from
    requires forall d <- deaths :: d.start <= d.end
    ensures DeadTime(deaths, from, to) == 0.0
  {
    if deaths != [] {
      BeforeTheRest(deaths[1..], from, to);
    }
  }

  // ---------- The windows ----------

  lemma NoDeadTime(deaths: seq<Death>, from: real, to: real)
    ensures DeadTime(deaths[..0], from, to) == 0.0
  {
  }

  lemma DeadTimeGrows(deaths: seq<Death>, j: nat, from: real, to: real)
    requires j < |deaths|
    ensures DeadTime(deaths[..j + 1], from, to) == DeadTime(deaths[..j], from, to) + Overlap(deaths[j], from, to)
  {
    DeadTimeSplits(deaths[..j], [deaths[j]], from, to);
    assert deaths[..j + 1] == deaths[..j] + [deaths[j]];
    assert [deaths[j]][1..] == [];
  }

  /** Once a death begins after the window, so do all that follow. */
  lemma BreakLosesNothing(deaths: seq<Death>, j: nat, from: real, to: real)
    requires Ordered(deaths) && j < |deaths| && to <= deaths[j].start
    ensures DeadTime(deaths, from, to) == DeadTime(deaths[..j], from, to)
  {
    LateDeathsDoNotCount(deaths[j..], from, to);
    DeadTimeSplits(deaths[..j], deaths[j..], from, to);
    assert deaths == deaths[..j] + deaths[j..];
  }

  /** Dead time in a window, leaving off at the first death that begins after it. */
  method WindowDeadTime(deaths: seq<Death>, start: real, end: real) returns (t: real)
    requires start <= end && forall d <- deaths :: d.start <= d.end
    ensures Ordered(deaths) ==> t == DeadTime(deaths, start, end)
  {
    hide DeadTime;
    t := 0.0;
    var j := 0;
    NoDeadTime(deaths, start, end);
    while j < |deaths|
      invariant 0 <= j <= |deaths|
      invariant t == DeadTime(deaths[..j], start, end)
    {
      var d := deaths[j];
      assert d in deaths;
      if d.start >= end {
        if Ordered(deaths) {
          BreakLosesNothing(deaths, j, start, end);
        }
        return;
      }
      DeadTimeGrows(deaths, j, start, end);
      if d.end > start {
        t := t + (Min(end, d.end) - Max(start, d.start));
      }
      j := j + 1;
    }
    assert deaths[..j] == deaths;
  }

  // ---------- Deaths of a match ----------

  datatype Event = Event(isKill: bool, victim: int, timestamp: int)

  /** The events of a minute, and everyone's level at its end. */
  datatype Frame = Frame(events: seq<Event>, levels: map<int, nat>)

  function LevelIn(f: Frame, p: int): nat {
    if p in f.levels then f.levels[p] else 0
  }

  predicate IsDeathOf(e: Event, p: int) {
    e.isKill && e.victim == p
  }

  function DeathAt(f: Frame, e: Event, p: int): Death {
    var seconds := e.timestamp as real / 1000.0;
    Death(seconds, DeathEnd(seconds, LevelIn(f, p)))
  }

  /** The deaths among the first `n` events of a frame. */
  ghost function DeathsIn(f: Frame, n: nat, p: int): seq<Death>
    requires n <= |f.events|
  {
    if n == 0 then []
    else
      var e := f.events[n - 1];
      DeathsIn(f, n - 1, p) + if IsDeathOf(e, p) then [DeathAt(f, e, p)] else []
  }

  ghost function AllDeaths(frames: seq<Frame>, p: int): seq<Death> {
    if frames == [] then []
    else
      var last := frames[|frames| - 1];
      AllDeaths(frames[..|frames| - 1], p) + DeathsIn(last, |last.events|, p)
  }

  method DeathsOf(frames: seq<Frame>, p: int) returns (deaths: seq<Death>)
    ensures deaths == AllDeaths(frames, p)
  {
    deaths := [];
    for i := 0 to |frames|
      invariant deaths == AllDeaths(frames[..i], p)
    {
      var f := frames[i];
      assert frames[..i + 1][..i] == frames[..i];
      for j := 0 to |f.events|
        invariant deaths == AllDeaths(frames[..i], p) + DeathsIn(f, j, p)
      {
        if IsDeathOf(f.events[j], p) {
          deaths := deaths + [DeathAt(f, f.events[j], p)];
        }
      }
    }
    assert frames[..|frames|] == frames;
  }

  /** Every kill of the player is one death, at its moment and with his level at the end of that minute, and there are
      no others. */
  lemma {:induction false} DeathsAreKills(frames: seq<Frame>, p: int, d: Death)
    ensures d in AllDeaths(frames, p) <==> exists f <- frames :: exists e <- f.events :: IsKillAt(f, e, p, d)
  {
    if frames != [] {
      var front, last := frames[..|frames| - 1], frames[|frames| - 1];
      DeathsAreKills(front, p, d);
      DeathsAreKillsIn(last, |last.events|, p, d);
      assert last.events[..|last.events|] == last.events;
      assert frames == front + [last];
    }
  }

  ghost predicate IsKillAt(f: Frame, e: Event, p: int, d: Death) {
    && e.isKill && e.victim == p && d.start * 1000.0 == e.timestamp as real
    && d.end == DeathEnd(d.start, if p in f.levels then f.levels[p] else 0)
  }

  lemma {:induction false} DeathsAreKillsIn(f: Frame, n: nat, p: int, d: Death)
    requires n <= |f.events|
    ensures d in DeathsIn(f, n, p) <==> exists e <- f.events[..n] :: IsKillAt(f, e, p, d)
  {
    hide DeathEnd, IsKillAt, IsDeathOf, DeathAt;
    if n > 0 {
      DeathsAreKillsIn(f, n - 1, p, d);
      KillIs(f, f.events[n - 1], p, d);
      assert f.events[..n] == f.events[..n - 1] + [f.events[n - 1]];
    }
  }

  lemma KillIs(f: Frame, e: Event, p: int, d: Death)
    ensures IsKillAt(f, e, p, d) <==> IsDeathOf(e, p) && d == DeathAt(f, e, p)
  {
    hide DeathEnd;
  }

  lemma {:induction false} DeathsEndLater(frames: seq<Frame>, p: int)
    ensures forall d <- AllDeaths(frames, p) :: d.start <= d.end
  {
    if frames != [] {
      var last := frames[|frames| - 1];
      DeathsEndLater(frames[..|frames| - 1], p);
      DeathsInEndLater(last, |last.events|, p);
    }
  }

  lemma {:induction false} DeathsInEndLater(f: Frame, n: nat, p: int)
    requires n <= |f.events|
    ensures forall d <- DeathsIn(f, n, p) :: d.start <= d.end
  {
    if n > 0 {
      DeathsInEndLater(f, n - 1, p);
    }
  }

  // ---------- The history ----------

  function WindowStart(end: real): real {
    Max(0.0, end - LOOKBACK)
  }

  /** The percentage that belongs to the window before `end`. */
  ghost function Exact(deaths: seq<Death>, end: real): real {
    DeadTime(deaths, WindowStart(end), end) * 100.0 / LOOKBACK
  }

  ghost function Sum(points: seq<TimePercent>): real {
    if points == [] then 0.0 else Sum(points[..|points| - 1]) + points[|points| - 1].percent
  }

  /** One point a minute, each with the exact percentage of its window. */
  ghost predicate IsHistory(points: seq<TimePercent>, deaths: seq<Death>) {
    forall k :: 0 <= k < |points| ==>
                  points[k].time == INTERVAL * (k + 1) as real && points[k].percent == Exact(deaths, points[k].time)
  }

  lemma ExactIsPercentage(deaths: seq<Death>, end: real)
    requires Disjoint(deaths) && 0.0 <= end
    ensures 0.0 <= Exact(deaths, end) <= 100.0
  {
    DeadTimeFits(deaths, WindowStart(end), end);
    var t := DeadTime(deaths, WindowStart(end), end);
    assert 0.0 <= t <= LOOKBACK;
  }

  /** Someone who is dead all along has been dead for the whole of the last five minutes, or of the time so far if that
      is less. */
  lemma DeadAllAlong(d: Death, end: real)
    requires d.start <= 0.0 <= end <= d.end
    ensures Exact([d], end) == if end < 300.0 then end / 3.0 else 100.0
  {
    assert DeadTime([d][1..], WindowStart(end), end) == 0.0;
  }

  lemma {:induction false} SumIsBounded(points: seq<TimePercent>)
    requires forall q <- points :: 0.0 <= q.percent <= 100.0
    ensures 0.0 <= Sum(points) <= 100.0 * |points| as real
  {
    if points != [] {
      SumIsBounded(points[..|points| - 1]);
    }
  }

  lemma AverageIsBounded(sum: real, n: real)
    requires 0.0 < n && 0.0 <= sum <= 100.0 * n
    ensures 0.0 <= sum / n <= 100.0
  {
  }

  /** The history of a match and its average, which is undefined for matches of less than a minute. */
  method AddDeathTimePercentage(frames: seq<Frame>, duration: int, p: int)
    returns (points: seq<TimePercent>, average: Option<real>)
    ensures |points| == if duration < 60 then 0 else duration / 60
    ensures Ordered(AllDeaths(frames, p)) ==> IsHistory(points, AllDeaths(frames, p))
    ensures average == if duration < 60 then None else Some(Sum(points) / |points| as real)
    ensures Disjoint(AllDeaths(frames, p)) ==>
              (forall q <- points :: 0.0 <= q.percent <= 100.0) && (average.Some? ==> 0.0 <= average.value <= 100.0)
  {
    var deaths := DeathsOf(frames, p);
    DeathsEndLater(frames, p);
    points := [];
    var sum, n := 0.0, 0.0;
    var end := INTERVAL;
    while end <= duration as real
      invariant end == INTERVAL * (|points| + 1) as real && n == |points| as real
      invariant |points| == 0 || 60 * |points| <= duration
      invariant sum == Sum(points)
      invariant Ordered(deaths) ==> IsHistory(points, deaths)
      decreases duration as real - end
    {
      var start := WindowStart(end);
      var dead := WindowDeadTime(deaths, start, end);
      var point := TimePercent(end, 100.0 * dead / LOOKBACK);
      assert (points + [point])[..|points|] == points;
      points := points + [point];
      sum := sum + 100.0 * dead / LOOKBACK;
      n := n + 1.0;
      end := end + INTERVAL;
    }
    average := if n == 0.0 then None else Some(sum / n);
    if Disjoint(deaths) {
      forall q | q in points
        ensures 0.0 <= q.percent <= 100.0
      {
        ExactIsPercentage(deaths, q.time);
      }
      SumIsBounded(points);
      if n > 0.0 {
        AverageIsBounded(sum, n);
      }
    }
  }
}
