/** What the recorded frames say (lolstats-master/ingest/time_management.go): a moment belongs to a frame of an
    activity because some event showed the player at it there and then, and the other way round. */
module Activities {
  import opened TimeManagement
  import opened Teams
  import opened Wrappers

  // ---------- What the events show ----------

  /** Whether the player is dead after the events: since the last death, no report gave him any health. */
  ghost predicate IsDeadAfter(events: seq<Event>) {
    if events == [] then false
    else
      match events[|events| - 1]
      case Death(_) => true
      case StateUpdate(_, _, health) => health <= 0.0 && IsDeadAfter(events[..|events| - 1])
      case _ => IsDeadAfter(events[..|events| - 1])
  }

  /** Where the player was last reported, leaving out the base. */
  ghost function PlaceAfter(events: seq<Event>): string {
    if events == [] then ""
    else
      match events[|events| - 1]
      case StateUpdate(_, areaName, _) => if areaName == "base" then PlaceAfter(events[..|events| - 1]) else areaName
      case _ => PlaceAfter(events[..|events| - 1])
  }

  /** How long an event shows the player at an activity. */
  function LastsFor(activity: string): real {
    if activity == "dead" then 120.0
    else if activity == "farm" then 2.0
    else if activity == "" then 0.1
    else 5.0
  }

  /** The activity that an event shows, if any. A death shows one only to the living, and a report to the dead. */
  ghost function Shown(events: seq<Event>, teamID: int, i: nat): Option<string>
    requires i < |events|
  {
    match events[i]
    case Attack(_, targetID, targetType) => NameOf(DoingOnAttack(teamID, targetID, targetType))
    case DamageTaken(_, attackerID, attackerType) => NameOf(DoingOnDamage(attackerID, attackerType))
    case WardPlaced(_) => Some("ward")
    case Death(_) => if IsDeadAfter(events[..i]) then None else Some("dead")
    case StateUpdate(_, _, health) => if IsDeadAfter(events[..i]) && health > 0.0 then Some("") else None
  }

  function NameOf(doing: Option<Doing>): Option<string> {
    match doing
    case None => None
    case Some(d) => Some(d.activity)
  }

  /** Event `i` shows the activity in that area, and the moment is one it stands for, or at most a second before. */
  ghost predicate Explains(events: seq<Event>, teamID: int, activity: string, areaName: string, time: real, i: nat) {
    && i < |events| && Shown(events, teamID, i) == Some(activity) && PlaceAfter(events[..i]) == areaName
    && events[i].sec - 1.0 <= time <= events[i].sec + LastsFor(activity)
  }

  predicate Contains(f: Frame, time: real) {
    f.begin <= time <= f.end
  }

  /** Every moment of the frame is explained by an event. */
  ghost predicate IsExplained(events: seq<Event>, teamID: int, f: Frame) {
    forall time :: Contains(f, time) ==> exists i: nat :: Explains(events, teamID, f.activity, f.areaName, time, i)
  }

  /** All frames that last are explained; the others are arrivals, or were cut short at once. */
  ghost predicate AllExplained(events: seq<Event>, teamID: int, frames: seq<Frame>) {
    forall k :: 0 <= k < |frames| && frames[k].begin < frames[k].end ==> IsExplained(events, teamID, frames[k])
  }

  /** Attacking or being hit by the herald or the baron shows the one activity, and by a dragon the other. */
  lemma EpicMonsters(teamID: int, id: int, kind: string)
    requires 300 <= id <= 303 && kind != ACTOR_TURRET
    ensures var name := if id <= 301 then "baron" else "dragon";
            NameOf(DoingOnAttack(teamID, id, kind)) == NameOf(DoingOnDamage(id, kind)) == Some(name)
  {
  }

  /** Nothing is shown by fighting champions of the other team: that is left to the fights. */
  lemma ChampionsShowNothing(me: int, enemy: int, kind: string)
    requires 1 <= me <= 10 && 1 <= enemy <= 10 && (me <= 5 <==> enemy > 5)
    ensures NameOf(DoingOnAttack(TeamID(me), enemy, kind)) == NameOf(DoingOnDamage(enemy, kind)) == None
  {
  }

  /** Minions are farmed, and an attack without a target counts as such. Turrets are besieged by whoever attacks them
      or is hit by them. */
  lemma MinionsAndTurrets(teamID: int, id: int, kind: string)
    requires TeamID(id) == 0 && !(300 <= id <= 303)
    ensures kind == "minion" || kind == "" ==>
              NameOf(DoingOnAttack(teamID, id, kind)) == Some("farm") && NameOf(DoingOnDamage(id, kind)) == None
    ensures kind == "turret" ==>
              NameOf(DoingOnAttack(teamID, id, kind)) == NameOf(DoingOnDamage(id, kind)) == Some("siege")
  {
    assert "minion"[0] == 'm' && "turret"[0] == 't';
  }

  lemma {:induction false} StateIs(events: seq<Event>, teamID: int)
    ensures var t := AfterEvents(events, teamID);
            t.isDead == IsDeadAfter(events) && t.lastAreaName == PlaceAfter(events)
  {
    if events != [] {
      StateIs(events[..|events| - 1], teamID);
    }
  }

  lemma ShownLasts(teamID: int, id: int, kind: string)
    ensures var doing := DoingOnAttack(teamID, id, kind);
            doing.Some? ==> doing.value.seconds == LastsFor(doing.value.activity)
    ensures var doing := DoingOnDamage(id, kind); doing.Some? ==> doing.value.seconds == LastsFor(doing.value.activity)
  {
    assert "dead"[0] == 'd' && "farm"[0] == 'f' && "siege"[0] == 's' && "baron"[0] == 'b';
    assert "dragon"[1] == 'r' && "dead"[1] == 'e';
  }

  /** What an event does to the timeline: the player does what it shows, and moves where it says. */
  ghost function Acted(t: Timeline, events: seq<Event>, teamID: int, i: nat): Timeline
    requires i < |events|
  {
    var u := t.(isDead := IsDeadAfter(events[..i + 1]));
    match Shown(events, teamID, i)
    case None => u
    case Some(activity) => Did(u, Some(Doing(activity, LastsFor(activity))), events[i].sec)
  }

  ghost function Travelled(t: Timeline, e: Event): Timeline {
    if e.StateUpdate? then Moved(t, e.areaName, e.sec) else t
  }

  lemma {:induction false} EventActs(events: seq<Event>, teamID: int, i: nat)
    requires i < |events|
    ensures AfterEvents(events[..i + 1], teamID) ==
            Travelled(Acted(AfterEvents(events[..i], teamID), events, teamID, i), events[i])
  {
    hide Moved, WithFrame, DoingOnAttack, DoingOnDamage;
    var upTo, e := events[..i + 1], events[i];
    assert upTo[..|upTo| - 1] == events[..i] && upTo[|upTo| - 1] == e;
    StateIs(events[..i], teamID);
    match e
    case Attack(sec, targetID, targetType) => ShownLasts(teamID, targetID, targetType);
    case DamageTaken(sec, attackerID, attackerType) => ShownLasts(teamID, attackerID, attackerType);
    case WardPlaced(sec) => assert LastsFor("ward") == 5.0 by { assert "ward"[0] == 'w'; }
    case _ =>
  }

  // ---------- Every frame is explained ----------

  lemma ExplainsLater(events: seq<Event>, e: Event, teamID: int, activity: string, areaName: string, time: real, i: nat)
    requires Explains(events, teamID, activity, areaName, time, i)
    ensures Explains(events + [e], teamID, activity, areaName, time, i)
  {
    hide IsDeadAfter, PlaceAfter, DoingOnAttack, DoingOnDamage, LastsFor;
    assert (events + [e])[..i] == events[..i];
  }

  lemma StaysExplained(events: seq<Event>, e: Event, teamID: int, frames: seq<Frame>)
    requires AllExplained(events, teamID, frames)
    ensures AllExplained(events + [e], teamID, frames)
  {
    hide Explains;
    forall k, time | 0 <= k < |frames| && frames[k].begin < frames[k].end && Contains(frames[k], time)
      ensures exists i: nat :: Explains(events + [e], teamID, frames[k].activity, frames[k].areaName, time, i)
    {
      var f := frames[k];
      var i: nat :| Explains(events, teamID, f.activity, f.areaName, time, i);
      ExplainsLater(events, e, teamID, f.activity, f.areaName, time, i);
    }
  }

  lemma CutStaysExplained(events: seq<Event>, teamID: int, frames: seq<Frame>, at: real)
    requires AllExplained(events, teamID, frames)
    ensures AllExplained(events, teamID, TruncateLast(frames, at))
  {
    hide Explains;
    var cut := TruncateLast(frames, at);
    forall k, time | 0 <= k < |cut| && cut[k].begin < cut[k].end && Contains(cut[k], time)
      ensures exists i: nat :: Explains(events, teamID, cut[k].activity, cut[k].areaName, time, i)
    {
      assert Contains(frames[k], time);
    }
  }

  /** A new frame, and one that it extends, are explained by the event that the new one is made for. */
  lemma NewFrameIsExplained(events: seq<Event>, teamID: int, frames: seq<Frame>, i: nat)
    requires AllExplained(events, teamID, frames)
    requires i < |events| && Shown(events, teamID, i).Some?
    ensures var activity, sec := Shown(events, teamID, i).value, events[i].sec;
            AllExplained(events, teamID,
                         WithFrame(frames, Frame(activity, PlaceAfter(events[..i]), sec, sec + LastsFor(activity))))
  {
    hide Shown, PlaceAfter, LastsFor, TruncateLast, IsDeadAfter;
    var activity, areaName, sec := Shown(events, teamID, i).value, PlaceAfter(events[..i]), events[i].sec;
    var f := Frame(activity, areaName, sec, sec + LastsFor(activity));
    var cut := TruncateLast(frames, sec);
    CutStaysExplained(events, teamID, frames, sec);
    CutEndsBefore(frames, sec);
    var r := WithFrame(frames, f);
    forall k, time | 0 <= k < |r| && r[k].begin < r[k].end && Contains(r[k], time)
      ensures exists j: nat :: Explains(events, teamID, r[k].activity, r[k].areaName, time, j)
    {
      if k == |r| - 1 && sec - 1.0 <= time {
        assert Explains(events, teamID, activity, areaName, time, i);
      } else {
        assert Contains(cut[k], time) && cut[k].activity == r[k].activity && cut[k].areaName == r[k].areaName;
      }
    }
  }

  lemma CutEndsBefore(frames: seq<Frame>, at: real)
    ensures var cut := TruncateLast(frames, at); cut != [] ==> cut[|cut| - 1].end <= at
  {
  }

  lemma ArrivalIsExplained(events: seq<Event>, teamID: int, t: Timeline, e: Event)
    requires AllExplained(events, teamID, t.frames)
    ensures AllExplained(events, teamID, Travelled(t, e).frames)
  {
    hide IsExplained, TruncateLast;
    if e.StateUpdate? {
      CutStaysExplained(events, teamID, t.frames, e.sec);
    }
  }

  /** Every moment of a recorded frame that lasts belongs to an event that shows its activity in its area: it lies
      at most a second before the event, and not after what the event stands for. */
  lemma {:induction false} FramesAreExplained(events: seq<Event>, teamID: int)
    ensures AllExplained(events, teamID, AfterEvents(events, teamID).frames)
  {
    hide AllExplained, Acted, Travelled, AfterEvent;
    if events == [] {
      NothingToExplain(teamID);
    } else {
      var n := |events| - 1;
      var front := events[..n];
      FramesAreExplained(front, teamID);
      var t := AfterEvents(front, teamID);
      assert front + [events[n]] == events && events[..n + 1] == events;
      StaysExplained(front, events[n], teamID, t.frames);
      StateIs(front, teamID);
      EventActs(events, teamID, n);
      ActedIsExplained(events, teamID, t, n);
      ArrivalIsExplained(events, teamID, Acted(t, events, teamID, n), events[n]);
    }
  }

  lemma NothingToExplain(teamID: int)
    ensures AllExplained([], teamID, [])
  {
  }

  lemma ActedIsExplained(events: seq<Event>, teamID: int, t: Timeline, i: nat)
    requires i < |events| && AllExplained(events, teamID, t.frames) && t.lastAreaName == PlaceAfter(events[..i])
    ensures AllExplained(events, teamID, Acted(t, events, teamID, i).frames)
  {
    hide Shown, AllExplained, WithFrame, LastsFor;
    if Shown(events, teamID, i).Some? {
      NewFrameIsExplained(events, teamID, t.frames, i);
    }
  }

  /** When more than a second passes between what two events stand for, and no event between them shows the player
      at the same activity in the same area, no frame that lasts reaches from the one to the other. */
  lemma PausesEndFrames(events: seq<Event>, teamID: int, i: nat, j: nat, f: Frame)
    requires TimeOrdered(events) && i < j < |events|
    requires Shown(events, teamID, i) == Shown(events, teamID, j) == Some(f.activity)
    requires forall m :: i < m < j && Shown(events, teamID, m) == Some(f.activity) ==>
                           PlaceAfter(events[..m]) != f.areaName
    requires events[i].sec + LastsFor(f.activity) < events[j].sec - 1.0
    requires f in AfterEvents(events, teamID).frames && f.begin < f.end
    ensures events[i].sec + LastsFor(f.activity) < f.begin || f.end < events[j].sec - 1.0
  {
    hide Shown, PlaceAfter, AfterEvents, LastsFor;
    var from, to := events[i].sec + LastsFor(f.activity), events[j].sec - 1.0;
    var time := (from + to) / 2.0;
    FramesAreExplained(events, teamID);
    forall m: nat
      ensures !Explains(events, teamID, f.activity, f.areaName, time, m)
    {
      if m < |events| {
        InOrder(events, m, i);
        InOrder(events, j, m);
      }
    }
    assert !Contains(f, time);
  }

  lemma InOrder(events: seq<Event>, i: nat, j: nat)
    requires TimeOrdered(events) && i < |events| && j < |events|
    ensures i <= j ==> events[i].sec <= events[j].sec
  {
  }

  // ---------- Every event is recorded ----------

  /** The player comes to a new area, other than the base. */
  ghost predicate Arrives(events: seq<Event>, j: nat)
    requires j < |events|
  {
    events[j].StateUpdate? && events[j].areaName != "base" && events[j].areaName != PlaceAfter(events[..j])
  }

  ghost predicate IsRecorded(frames: seq<Frame>, activity: string, areaName: string, time: real) {
    exists k :: 0 <= k < |frames| && IsAt(frames[k], activity, areaName, time)
  }

  predicate IsAt(f: Frame, activity: string, areaName: string, time: real) {
    f.activity == activity && f.areaName == areaName && Contains(f, time)
  }

  lemma CutKeepsRecord(frames: seq<Frame>, at: real, activity: string, areaName: string, time: real)
    requires IsRecorded(frames, activity, areaName, time) && time <= at
    ensures IsRecorded(TruncateLast(frames, at), activity, areaName, time)
  {
    var k :| 0 <= k < |frames| && IsAt(frames[k], activity, areaName, time);
    assert IsAt(TruncateLast(frames, at)[k], activity, areaName, time);
  }

  lemma MoreKeepsRecord(frames: seq<Frame>, f: Frame, activity: string, areaName: string, time: real)
    requires IsRecorded(frames, activity, areaName, time) && time <= f.begin <= f.end
    ensures IsRecorded(WithFrame(frames, f), activity, areaName, time)
    ensures IsRecorded(TruncateLast(frames, f.begin) + [f], activity, areaName, time)
  {
    hide TruncateLast, CanMerge;
    CutKeepsRecord(frames, f.begin, activity, areaName, time);
    var cut := TruncateLast(frames, f.begin);
    var k :| 0 <= k < |cut| && IsAt(cut[k], activity, areaName, time);
    assert IsAt((cut + [f])[k], activity, areaName, time);
    assert IsAt(WithFrame(frames, f)[k], activity, areaName, time);
  }

  /** A frame is recorded when it starts, extended or not. */
  lemma NewIsRecorded(frames: seq<Frame>, f: Frame, time: real)
    requires Started(frames, f.begin) && Contains(f, time)
    ensures IsRecorded(WithFrame(frames, f), f.activity, f.areaName, time)
  {
    var r := WithFrame(frames, f);
    assert IsAt(r[|r| - 1], f.activity, f.areaName, time);
  }

  lemma LaterKeepsRecord(
    events: seq<Event>, teamID: int, t: Timeline, j: nat, activity: string, areaName: string, time: real)
    requires j < |events| && t.lastAreaName == PlaceAfter(events[..j])
    requires IsRecorded(t.frames, activity, areaName, time)
    requires Shown(events, teamID, j).Some? || Arrives(events, j) ==> time <= events[j].sec
    ensures IsRecorded(Travelled(Acted(t, events, teamID, j), events[j]).frames, activity, areaName, time)
  {
    hide IsRecorded, WithFrame, PlaceAfter, Shown;
    var e := events[j];
    if Shown(events, teamID, j).Some? {
      var a := Shown(events, teamID, j).value;
      MoreKeepsRecord(t.frames, Frame(a, t.lastAreaName, e.sec, e.sec + LastsFor(a)), activity, areaName, time);
    }
    TravelKeepsRecord(Acted(t, events, teamID, j), e, activity, areaName, time);
  }

  lemma TravelKeepsRecord(t: Timeline, e: Event, activity: string, areaName: string, time: real)
    requires IsRecorded(t.frames, activity, areaName, time)
    requires e.StateUpdate? && e.areaName != "base" && e.areaName != t.lastAreaName ==> time <= e.sec
    ensures IsRecorded(Travelled(t, e).frames, activity, areaName, time)
  {
    hide IsRecorded, WithFrame;
    if e.StateUpdate? && e.areaName != "base" && e.areaName != t.lastAreaName {
      MoreKeepsRecord(t.frames, Frame(t.lastActivity, e.areaName, e.sec, e.sec), activity, areaName, time);
    }
  }

  /** Every moment that an event stands for is recorded, in its area, as far as no later event shows another activity
      or the arrival in another area before it. */
  lemma {:induction false} ShownIsRecorded(events: seq<Event>, teamID: int, i: nat, time: real)
    requires TimeOrdered(events) && i < |events| && Shown(events, teamID, i).Some?
    requires events[i].sec <= time <= events[i].sec + LastsFor(Shown(events, teamID, i).value)
    requires forall j :: i < j < |events| && Shown(events, teamID, j).Some? ==> time <= events[j].sec
    requires forall j :: i <= j < |events| && Arrives(events, j) ==> time <= events[j].sec
    ensures IsRecorded(AfterEvents(events, teamID).frames, Shown(events, teamID, i).value, PlaceAfter(events[..i]),
                       time)
  {
    hide IsRecorded, WithFrame, PlaceAfter, Shown, AfterEvents, IsDeadAfter, Moved;
    var n := |events| - 1;
    var front, activity, areaName := events[..n], Shown(events, teamID, i).value, PlaceAfter(events[..i]);
    var t := AfterEvents(front, teamID);
    assert events[..n + 1] == events;
    EventActs(events, teamID, n);
    StateIs(front, teamID);
    if i == n {
      EventsKeepOrder(front, teamID, events[n].sec);
      NewIsRecorded(t.frames, Frame(activity, areaName, events[n].sec, events[n].sec + LastsFor(activity)), time);
      TravelKeepsRecord(Acted(t, events, teamID, n), events[n], activity, areaName, time);
    } else {
      forall j | i <= j < n
        ensures Shown(front, teamID, j) == Shown(events, teamID, j) && (Arrives(front, j) <==> Arrives(events, j))
      {
        SameSoFar(front, events, teamID, j);
      }
      SameSoFar(front, events, teamID, i);
      ShownIsRecorded(front, teamID, i, time);
      LaterKeepsRecord(events, teamID, t, n, activity, areaName, time);
    }
  }

  /** What an event shows depends on the events up to it alone. */
  lemma SameSoFar(front: seq<Event>, events: seq<Event>, teamID: int, j: nat)
    requires j < |front| && front <= events
    ensures Shown(front, teamID, j) == Shown(events, teamID, j) && (Arrives(front, j) <==> Arrives(events, j))
    ensures PlaceAfter(front[..j]) == PlaceAfter(events[..j])
  {
    assert front[..j] == events[..j];
  }

  // ---------- Events that go on ----------

  /** One frame reaches from the one moment to the other. */
  ghost predicate IsStretch(frames: seq<Frame>, activity: string, areaName: string, from: real, to: real) {
    exists k :: 0 <= k < |frames| && IsAt(frames[k], activity, areaName, from) && Contains(frames[k], to)
  }

  /** The last frame goes on until that end. */
  ghost predicate GoesOnUntil(frames: seq<Frame>, activity: string, areaName: string, from: real, end: real) {
    && frames != []
    && var f := frames[|frames| - 1];
    && f.activity == activity && f.areaName == areaName && f.begin <= from && f.end == end
  }

  lemma NewGoesOn(frames: seq<Frame>, f: Frame)
    requires Started(frames, f.begin)
    ensures GoesOnUntil(WithFrame(frames, f), f.activity, f.areaName, f.begin, f.end)
  {
  }

  /** From an event on, until another one shows something or arrives elsewhere, its frame goes on. */
  lemma {:induction false} ShownGoesOn(events: seq<Event>, teamID: int, i: nat)
    requires TimeOrdered(events) && i < |events| && Shown(events, teamID, i).Some?
    requires forall m :: i < m < |events| ==> Shown(events, teamID, m) == None
    requires forall m :: i <= m < |events| ==> !Arrives(events, m)
    ensures var activity := Shown(events, teamID, i).value;
            GoesOnUntil(AfterEvents(events, teamID).frames, activity, PlaceAfter(events[..i]), events[i].sec,
                        events[i].sec + LastsFor(activity))
  {
    hide GoesOnUntil, WithFrame, Shown, AfterEvents, IsDeadAfter, LastsFor, PlaceAfter;
    var n := |events| - 1;
    var front, activity, areaName := events[..n], Shown(events, teamID, i).value, PlaceAfter(events[..i]);
    var t := AfterEvents(front, teamID);
    assert events[..n + 1] == events && !Arrives(events, n);
    EventActs(events, teamID, n);
    StateIs(front, teamID);
    if i == n {
      EventsKeepOrder(front, teamID, events[n].sec);
      NewGoesOn(t.frames, Frame(activity, areaName, events[n].sec, events[n].sec + LastsFor(activity)));
    } else {
      forall j | i <= j < n
        ensures Shown(front, teamID, j) == Shown(events, teamID, j) && (Arrives(front, j) <==> Arrives(events, j))
      {
        SameSoFar(front, events, teamID, j);
      }
      SameSoFar(front, events, teamID, i);
      ShownGoesOn(front, teamID, i);
    }
  }

  /** Where the player is stays the same until he arrives elsewhere. */
  lemma {:induction false} NobodyArrives(events: seq<Event>, i: nat)
    requires i <= |events| && forall m :: i <= m < |events| ==> !Arrives(events, m)
    ensures PlaceAfter(events) == PlaceAfter(events[..i])
  {
    if i == |events| {
      assert events[..i] == events;
    } else {
      var n := |events| - 1;
      var front := events[..n];
      assert front[..i] == events[..i] && !Arrives(events, n);
      forall m | i <= m < n
        ensures !Arrives(front, m)
      {
        assert front[..m] == events[..m] && !Arrives(events, m);
      }
      NobodyArrives(front, i);
    }
  }

  lemma NextExtends(frames: seq<Frame>, f: Frame, from: real, end: real)
    requires GoesOnUntil(frames, f.activity, f.areaName, from, end)
    requires from <= f.begin <= f.end && f.begin - 1.0 <= end
    ensures IsStretch(WithFrame(frames, f), f.activity, f.areaName, from, f.begin)
  {
    var r := WithFrame(frames, f);
    assert IsAt(r[|r| - 1], f.activity, f.areaName, from) && Contains(r[|r| - 1], f.begin);
  }

  lemma MoreKeepsStretch(frames: seq<Frame>, f: Frame, activity: string, areaName: string, from: real, to: real)
    requires IsStretch(frames, activity, areaName, from, to) && from <= to <= f.begin <= f.end
    ensures IsStretch(WithFrame(frames, f), activity, areaName, from, to)
    ensures IsStretch(TruncateLast(frames, f.begin) + [f], activity, areaName, from, to)
  {
    hide CanMerge;
    var cut := TruncateLast(frames, f.begin);
    var k :| 0 <= k < |frames| && IsAt(frames[k], activity, areaName, from) && Contains(frames[k], to);
    assert IsAt(cut[k], activity, areaName, from) && Contains(cut[k], to);
    assert IsAt((cut + [f])[k], activity, areaName, from);
    assert IsAt(WithFrame(frames, f)[k], activity, areaName, from);
  }

  lemma TravelKeepsStretch(t: Timeline, e: Event, activity: string, areaName: string, from: real, to: real)
    requires IsStretch(t.frames, activity, areaName, from, to) && from <= to <= e.sec
    ensures IsStretch(Travelled(t, e).frames, activity, areaName, from, to)
  {
    hide IsStretch, WithFrame;
    if e.StateUpdate? && e.areaName != "base" && e.areaName != t.lastAreaName {
      MoreKeepsStretch(t.frames, Frame(t.lastActivity, e.areaName, e.sec, e.sec), activity, areaName, from, to);
    }
  }

  lemma StepKeepsStretch(
    events: seq<Event>, teamID: int, t: Timeline, j: nat, activity: string, areaName: string, from: real, to: real)
    requires j < |events| && from <= to <= events[j].sec && IsStretch(t.frames, activity, areaName, from, to)
    ensures IsStretch(Travelled(Acted(t, events, teamID, j), events[j]).frames, activity, areaName, from, to)
  {
    hide IsStretch, WithFrame, PlaceAfter, Shown;
    var e := events[j];
    if Shown(events, teamID, j).Some? {
      var a := Shown(events, teamID, j).value;
      MoreKeepsStretch(t.frames, Frame(a, t.lastAreaName, e.sec, e.sec + LastsFor(a)), activity, areaName, from, to);
    }
    TravelKeepsStretch(Acted(t, events, teamID, j), e, activity, areaName, from, to);
  }

  /** When an event shows the activity of the one before it, in the same area and no more than a second after what
      that one stands for, one frame reaches from the one to the other. */
  lemma {:induction false} ContinuedInOneFrame(events: seq<Event>, teamID: int, i: nat, j: nat)
    requires TimeOrdered(events) && i < j < |events|
    requires Shown(events, teamID, i).Some? && Shown(events, teamID, j) == Shown(events, teamID, i)
    requires forall m :: i < m < j ==> Shown(events, teamID, m) == None
    requires forall m :: i <= m < j ==> !Arrives(events, m)
    requires events[j].sec - 1.0 <= events[i].sec + LastsFor(Shown(events, teamID, i).value)
    ensures IsStretch(AfterEvents(events, teamID).frames, Shown(events, teamID, i).value, PlaceAfter(events[..i]),
                      events[i].sec, events[j].sec)
  {
    hide GoesOnUntil, IsStretch, WithFrame, Shown, AfterEvents, IsDeadAfter, PlaceAfter, Moved, Arrives;
    var n := |events| - 1;
    var front, activity, areaName := events[..n], Shown(events, teamID, i).value, PlaceAfter(events[..i]);
    var t := AfterEvents(front, teamID);
    assert events[..n + 1] == events;
    EventActs(events, teamID, n);
    StateIs(front, teamID);
    InOrder(events, i, j);
    InOrder(events, j, n);
    forall m | i <= m < n
      ensures Shown(front, teamID, m) == Shown(events, teamID, m) && (Arrives(front, m) <==> Arrives(events, m))
    {
      SameSoFar(front, events, teamID, m);
    }
    SameSoFar(front, events, teamID, i);
    if j == n {
      ShownGoesOn(front, teamID, i);
      NobodyArrives(front, i);
      var f := Frame(activity, areaName, events[n].sec, events[n].sec + LastsFor(activity));
      NextExtends(t.frames, f, events[i].sec, events[i].sec + LastsFor(activity));
      TravelKeepsStretch(Acted(t, events, teamID, n), events[n], activity, areaName, events[i].sec, events[n].sec);
    } else {
      ContinuedInOneFrame(front, teamID, i, j);
      StepKeepsStretch(events, teamID, t, n, activity, areaName, events[i].sec, events[j].sec);
    }
  }

  // ---------- What is reported ----------

  lemma {:induction false} MergedAreFrames(frames: seq<Frame>, fights: seq<Fight>, participantID: int, i: nat)
    requires i <= |frames|
    ensures forall f <- Merged(frames, fights, participantID, i) :: f in frames || f.activity == "fight"
  {
    hide Drops, FightFrames;
    if i > 0 {
      MergedAreFrames(frames, fights, participantID, i - 1);
      FightFramesAreFights(fights, participantID, LastOf(Merged(frames, fights, participantID, i - 1)).areaName,
                           Taken(frames, fights, i - 1), Taken(frames, fights, i));
      assert frames[i - 1] in frames;
    }
  }

  lemma {:induction false} FightFramesAreFights(
    fights: seq<Fight>, participantID: int, areaName: string, j: nat, k: nat)
    requires j <= k <= |fights|
    ensures forall f <- FightFrames(fights, participantID, areaName, j, k) :: f.activity == "fight"
    decreases k - j
  {
    if j < k {
      FightFramesAreFights(fights, participantID, areaName, j, k - 1);
    }
  }

  /** Whatever is reported, other than fights and roaming, was shown by the events of the match. */
  lemma {:induction false} ReportIsExplained(events: seq<Event>, fights: seq<Fight>, participantID: int, f: Frame)
    requires f in Report(AfterEvents(events, TeamID(participantID)).frames, fights, participantID)
    requires f.activity != "fight" && f.activity != "roam"
    ensures IsExplained(events, TeamID(participantID), f)
  {
    hide Taken, Merged, AfterEvents, Cut, LongFrames, WithRoaming, Explains;
    var teamID := TeamID(participantID);
    var frames := AfterEvents(events, teamID).frames;
    var kept := Merged(frames, fights, participantID, |frames|);
    LongFramesAreLong(WithRoaming(Cut(kept)));
    RoamingAddsOnly(Cut(kept));
    var i := CutOfArea(kept, f);
    MergedAreFrames(frames, fights, participantID, |frames|);
    FramesAreExplained(events, teamID);
    var g := kept[i];
    assert g in frames && g.begin < g.end;
    forall time | Contains(f, time)
      ensures exists j: nat :: Explains(events, teamID, f.activity, f.areaName, time, j)
    {
      assert Contains(g, time);
    }
  }

  lemma CutOfArea(kept: seq<Frame>, f: Frame) returns (i: nat)
    requires f in Cut(kept)
    ensures i < |kept| && kept[i].activity == f.activity && kept[i].areaName == f.areaName
    ensures kept[i].begin == f.begin && f.end <= kept[i].end
  {
    i :| 0 <= i < |kept| && Cut(kept)[i] == f;
  }
}
