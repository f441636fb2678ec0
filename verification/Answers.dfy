/** Whose answers count (lolqueue-master/server.go): over any run of the queue, what is recorded on a match is the
    last answer of every player, and whoever is gathered in the end has said yes himself. */
module Answers {
  import opened Matchmaking
  import opened QueueProtocol
  import opened Subsequences
  import opened Wrappers

  /** The queue after the events, if all of them may happen. */
  ghost function Reached(events: seq<Event>): Option<Queue> {
    if events == [] then Some(INIT)
    else
      var before, e := Reached(events[..|events| - 1]), events[|events| - 1];
      if before.Some? && Possible(before.value, e) && (e.Offer? ==> Timely(before.value.data))
      then Some(Step(before.value, e)) else None
  }

  lemma {:induction false} RunsReach(done: seq<Event>, q: Queue, events: seq<Event>, q': Queue)
    requires Reached(done) == Some(q) && TimelyRun(q, events, q')
    ensures Reached(done + events) == Some(q')
    decreases |events|
  {
    hide Timely, Possible, Step;
    if events == [] {
      assert done + events == done;
    } else {
      assert (done + [events[0]])[..|done|] == done;
      RunsReach(done + [events[0]], Step(q, events[0]), events[1..], q');
      assert done + events == done + [events[0]] + events[1..];
    }
  }

  // ---------- What was said ----------

  /** The events that start a goroutine, in order: goroutine `t` is started by the `t`th of them. */
  ghost function Starts(events: seq<Event>): seq<Event> {
    if events == [] then []
    else
      var front, e := Starts(events[..|events| - 1]), events[|events| - 1];
      if e.Offer? || e.Respond? then front + [e] else front
  }

  /** An answer that is put on a match, under the key of a player. */
  datatype Reply = Reply(serial: nat, key: string, accept: bool)

  /** The rsvp that an event puts on a match. Someone who responds speaks for himself; the timeout loop says no for
      the invitee it has come to. */
  ghost function Put(events: seq<Event>, e: Event): Option<Reply> {
    match Reached(events)
    case None => None
    case Some(q) =>
      if e.Run? && e.thread < |q.threads| && e.thread < |Starts(events)| && q.threads[e.thread].phase.Answering? then
        var phase := q.threads[e.thread].phase;
        match Starts(events)[e.thread]
        case Respond(p, accept) => Some(Reply(phase.serial, p.Key(), accept))
        case _ => Some(Reply(phase.serial, phase.player.Key(), false))
      else None
  }

  ghost function Recorded(events: seq<Event>): seq<Reply> {
    if events == [] then []
    else
      var front, e := events[..|events| - 1], events[|events| - 1];
      match Put(front, e)
      case None => Recorded(front)
      case Some(r) => Recorded(front) + [r]
  }

  /** The last answer for a match under a key. */
  ghost function LastSaid(replies: seq<Reply>, serial: nat, key: string): Option<bool> {
    if replies == [] then None
    else
      var last := replies[|replies| - 1];
      if last.serial == serial && last.key == key then Some(last.accept)
      else LastSaid(replies[..|replies| - 1], serial, key)
  }

  // ---------- Goroutines remember who started them ----------

  ghost predicate Remembers(th: Thread, start: Event) {
    match start
    case Respond(p, accept) =>
      && th.Rsvp?
      && (th.phase.Looking? || th.phase.Answering? ==> th.phase.player == p && th.phase.accept == accept)
    case _ => th.Timeout? && (th.phase.Looking? || th.phase.Answering? ==> !th.phase.accept)
  }

  ghost predicate AllRemember(threads: seq<Thread>, starts: seq<Event>) {
    |threads| == |starts| && forall t :: 0 <= t < |threads| ==> Remembers(threads[t], starts[t])
  }

  lemma {:induction false} ThreadsRemember(events: seq<Event>)
    requires Reached(events).Some?
    ensures AllRemember(Reached(events).value.threads, Starts(events))
  {
    hide Timely, PendingMatchFor;
    if events != [] {
      var front, e := events[..|events| - 1], events[|events| - 1];
      ThreadsRemember(front);
      StepRemembers(Reached(front).value, e, Starts(front));
    }
  }

  lemma StepRemembers(q: Queue, e: Event, starts: seq<Event>)
    requires Possible(q, e) && AllRemember(q.threads, starts)
    ensures AllRemember(Step(q, e).threads, if e.Offer? || e.Respond? then starts + [e] else starts)
  {
    hide PendingMatchFor, Invite, Answer, CheckIfMatchMade, Offered;
    match e
    case Run(t, found) => assert Remembers(q.threads[t], starts[t]);
    case _ =>
  }

  // ---------- The last answer stands ----------

  ghost predicate RepliesAreIssued(replies: seq<Reply>, issued: seq<Issued>) {
    forall i :: 0 <= i < |replies| ==> replies[i].serial < |issued|
  }

  ghost function AnswerOn(m: Issued, key: string): Option<bool> {
    if key in m.accepted then Some(m.accepted[key]) else None
  }

  ghost predicate LastAnswersStand(replies: seq<Reply>, issued: seq<Issued>) {
    && RepliesAreIssued(replies, issued)
    && forall s: nat, key: string :: s < |issued| ==> AnswerOn(issued[s], key) == LastSaid(replies, s, key)
  }

  lemma {:induction false} NothingSaid(replies: seq<Reply>, serial: nat, key: string)
    requires forall i :: 0 <= i < |replies| ==> replies[i].serial != serial
    ensures LastSaid(replies, serial, key) == None
  {
    if replies != [] {
      NothingSaid(replies[..|replies| - 1], serial, key);
    }
  }

  lemma OneMoreSaid(replies: seq<Reply>, r: Reply, serial: nat, key: string)
    ensures LastSaid(replies + [r], serial, key) ==
            if r.serial == serial && r.key == key then Some(r.accept) else LastSaid(replies, serial, key)
  {
    assert (replies + [r])[..|replies|] == replies;
  }

  lemma OfferStands(replies: seq<Reply>, issued: seq<Issued>, m: Issued)
    requires LastAnswersStand(replies, issued) && m.accepted == map[]
    ensures LastAnswersStand(replies, issued + [m])
  {
    forall key: string
      ensures LastSaid(replies, |issued|, key) == None
    {
      NothingSaid(replies, |issued|, key);
    }
  }

  lemma AnswerStands(replies: seq<Reply>, d: Data, r: Reply, p: Player)
    requires LastAnswersStand(replies, d.issued) && r.serial < |d.issued| && r.key == p.Key()
    ensures LastAnswersStand(replies + [r], Answer(d, r.serial, p, r.accept).issued)
  {
    hide LastSaid, Player.Key;
    var after := Answer(d, r.serial, p, r.accept).issued;
    forall s: nat, key: string | s < |after|
      ensures AnswerOn(after[s], key) == LastSaid(replies + [r], s, key)
    {
      OneMoreSaid(replies, r, s, key);
      assert AnswerOn(d.issued[s], key) == LastSaid(replies, s, key);
    }
  }

  /** Over any run: what a match says about a key is the last answer recorded under it, and nothing if there is none. */
  lemma {:induction false} LastAnswerStands(events: seq<Event>)
    requires Reached(events).Some?
    ensures LastAnswersStand(Recorded(events), Reached(events).value.data.issued)
  {
    hide LastAnswersStand, Timely, PendingMatchFor;
    if events == [] {
      NothingStands();
    } else {
      var front, e := events[..|events| - 1], events[|events| - 1];
      LastAnswerStands(front);
      ThreadsRemember(front);
      StepStands(front, Reached(front).value, e);
      assert Recorded(front) + [] == Recorded(front);
    }
  }

  lemma NothingStands()
    ensures LastAnswersStand([], [])
  {
  }

  lemma StepStands(events: seq<Event>, q: Queue, e: Event)
    requires Reached(events) == Some(q) && Possible(q, e) && LastAnswersStand(Recorded(events), q.data.issued)
    requires AllRemember(q.threads, Starts(events))
    ensures var more := match Put(events, e) case None => [] case Some(r) => [r];
            LastAnswersStand(Recorded(events) + more, Step(q, e).data.issued)
  {
    hide LastAnswersStand, PendingMatchFor, Recorded, Reached, CheckIfMatchMade, Starts, Answer, Player.Key;
    var replies := Recorded(events);
    assert replies + [] == replies;
    match e
    case Offer(group) => OfferStands(replies, q.data.issued, Issued(NextID(q.data), group, map[]));
    case Run(t, found) =>
      assert Remembers(q.threads[t], Starts(events)[t]);
      match q.threads[t].phase {
        case Answering(p, serial, accept) => AnswerStands(replies, q.data, Put(events, e).value, p);
        case Checking(id) => CheckSaysNothing(q.data, id);
        case _ =>
      }
    case _ =>
  }

  lemma CheckSaysNothing(d: Data, id: int)
    ensures CheckIfMatchMade(d, id).issued == d.issued
  {
  }

  // ---------- Who is gathered ----------

  /** When the answers to a match are in, those are gathered whose last recorded answer is a yes: exactly these of
      the invited. */
  lemma GatheredSaidYes(events: seq<Event>, q: Queue, serial: nat, participants: seq<Player>, p: Player)
    requires TimelyRun(INIT, events, q) && serial < |q.data.issued| && p in q.data.issued[serial].invited
    requires Gathers(participants, q.data.issued[serial].invited, q.data.issued[serial].accepted)
    ensures p in participants <==> LastSaid(Recorded(events), serial, p.Key()) == Some(true)
  {
    hide TimelyRun, LastSaid, Recorded, Player.Key, IsSub;
    FromTheStart(events, q);
    LastAnswerStands(events);
    assert AnswerOn(q.data.issued[serial], p.Key()) == LastSaid(Recorded(events), serial, p.Key());
  }

  lemma FromTheStart(events: seq<Event>, q: Queue)
    requires TimelyRun(INIT, events, q)
    ensures Reached(events) == Some(q)
  {
    hide TimelyRun;
    assert [] + events == events;
    RunsReach([], INIT, events, q);
  }

  /** Someone responds under a key, and says yes. */
  ghost predicate SaysYes(e: Event, key: string) {
    e.Respond? && e.accept && e.player.Key() == key
  }

  lemma {:induction false} YesWasSaid(replies: seq<Reply>, serial: nat, key: string) returns (i: nat)
    requires LastSaid(replies, serial, key) == Some(true)
    ensures i < |replies| && replies[i] == Reply(serial, key, true)
  {
    i := |replies| - 1;
    if replies[i].serial != serial || replies[i].key != key {
      i := YesWasSaid(replies[..i], serial, key);
    }
  }

  lemma {:induction false} StartsAreEvents(events: seq<Event>)
    ensures forall e <- Starts(events) :: e in events
  {
    if events != [] {
      StartsAreEvents(events[..|events| - 1]);
    }
  }

  lemma {:induction false} YesComesFrom(events: seq<Event>, i: nat) returns (e: Event)
    requires i < |Recorded(events)| && Recorded(events)[i].accept
    ensures e in events && SaysYes(e, Recorded(events)[i].key)
  {
    hide Reached, Starts, Player.Key;
    var n := |events| - 1;
    var front := events[..n];
    assert events == front + [events[n]];
    if i < |Recorded(front)| {
      e := YesComesFrom(front, i);
    } else {
      assert Put(front, events[n]) == Some(Recorded(events)[i]);
      e := Starts(front)[events[n].thread];
      StartsAreEvents(front);
    }
  }

  /** Nobody plays whose key did not say yes: an invitee for whom the timeout loop answered, and nobody else, is
      never gathered. */
  lemma NobodyIsVolunteered(events: seq<Event>, q: Queue, serial: nat, participants: seq<Player>, p: Player)
    requires TimelyRun(INIT, events, q) && serial < |q.data.issued| && p in participants
    requires Gathers(participants, q.data.issued[serial].invited, q.data.issued[serial].accepted)
    ensures exists e <- events :: SaysYes(e, p.Key())
  {
    hide TimelyRun, LastSaid, Recorded, Player.Key;
    SubMembers(participants, q.data.issued[serial].invited);
    GatheredSaidYes(events, q, serial, participants, p);
    var i := YesWasSaid(Recorded(events), serial, p.Key());
    var e := YesComesFrom(events, i);
  }

  // ---------- A yes that is lost ----------

  lemma ReachesMore(events: seq<Event>, q: Queue, e: Event)
    requires Reached(events) == Some(q) && Possible(q, e) && (e.Offer? ==> Timely(q.data))
    ensures Reached(events + [e]) == Some(Step(q, e))
  {
    assert (events + [e])[..|events|] == events;
  }

  lemma PairIsOffered(p: Player, r: Player) returns (events: seq<Event>, q: Queue)
    requires p.summonerID != r.summonerID
    ensures Reached(events) == Some(q) && events == [Enter(p), Enter(r), Offer([p, r])]
    ensures q.threads == [Timeout(0, 0, Idle)] && q.data.issued == [Issued(1, [p, r], map[])]
    ensures q.data.pending == map[1 := 0]
  {
    AtFirst();
    hide Reached, Available;
    var one := Step(INIT, Enter(p));
    var two := Step(one, Enter(r));
    ReachesMore([], INIT, Enter(p));
    ReachesMore([] + [Enter(p)], one, Enter(r));
    assert two.data.active == [p, r];
    BothAvailable(p, r);
    SubOfItself([p, r]);
    ReachesMore([] + [Enter(p)] + [Enter(r)], two, Offer([p, r]));
    events, q := [] + [Enter(p)] + [Enter(r)] + [Offer([p, r])], Step(two, Offer([p, r]));
  }

  lemma BothAvailable(p: Player, r: Player)
    ensures Available([p, r], {}) == [p, r]
  {
    assert [p, r][1..] == [r] && [r][1..] == [];
    assert Available([r][1..], {}) == [] && Available([p, r][1..], {}) == [r];
  }

  lemma AtFirst()
    ensures Reached([]) == Some(INIT)
  {
  }

  /** Two players are offered a match. The timeout loop looks at the first one, who has not answered; then he says yes,
      which is recorded; then the loop, which does not look again, records a no for him. Whoever wants the match does
      not get it, although nobody but the loop ever declined. */
  lemma YesIsOverwritten(p: Player, r: Player) returns (before: seq<Event>, after: seq<Event>, q: Queue, q': Queue)
    requires p.summonerID != r.summonerID
    ensures Reached(before) == Some(q) && q.data.issued == [Issued(1, [p, r], map[p.Key() := true])]
    ensures Reached(before + after) == Some(q') && q'.data.issued == [Issued(1, [p, r], map[p.Key() := false])]
    ensures forall e <- before + after :: e.Respond? ==> e == Respond(p, true)
  {
    hide *;
    var start, at := PairIsOffered(p, r);
    var looks := LoopLooks(start, at, p, r);
    before, q := PlayerAgrees(start + [Run(0, None)], looks, p, r);
    after, q' := LoopDeclines(before, q, p, r);
    assert before + after == [Enter(p), Enter(r), Offer([p, r]), Run(0, None), Respond(p, true), Run(1, Some(0)),
                              Run(1, None), Run(0, Some(0)), Run(0, None)];
  }

  lemma LoopDeclines(before: seq<Event>, q: Queue, p: Player, r: Player) returns (after: seq<Event>, q': Queue)
    requires Reached(before) == Some(q) && q.data.pending == map[1 := 0]
    requires q.threads == [Timeout(0, 0, Looking(p, false)), Rsvp(Checking(1))]
    requires q.data.issued == [Issued(1, [p, r], map[p.Key() := true])]
    ensures after == [Run(0, Some(0)), Run(0, None)]
    ensures Reached(before + after) == Some(q') && q'.data.issued == [Issued(1, [p, r], map[p.Key() := false])]
  {
    hide Reached, Player.Key;
    FirstIsPending(q.data, p, r);
    var again := Step(q, Run(0, Some(0)));
    ReachesMore(before, q, Run(0, Some(0)));
    q' := Step(again, Run(0, None));
    ReachesMore(before + [Run(0, Some(0))], again, Run(0, None));
    after := [Run(0, Some(0)), Run(0, None)];
    assert before + after == before + [Run(0, Some(0))] + [Run(0, None)];
    assert map[p.Key() := true][p.Key() := false] == map[p.Key() := false];
  }

  lemma PlayerAgrees(start: seq<Event>, at: Queue, p: Player, r: Player) returns (events: seq<Event>, q: Queue)
    requires Reached(start) == Some(at) && at.threads == [Timeout(0, 0, Looking(p, false))]
    requires at.data.issued == [Issued(1, [p, r], map[])] && at.data.pending == map[1 := 0]
    ensures Reached(events) == Some(q) && q.data == at.data.(issued := [Issued(1, [p, r], map[p.Key() := true])])
    ensures q.threads == [Timeout(0, 0, Looking(p, false)), Rsvp(Checking(1))]
    ensures events == start + [Respond(p, true), Run(1, Some(0)), Run(1, None)]
  {
    hide Reached, Player.Key;
    var said := Step(at, Respond(p, true));
    ReachesMore(start, at, Respond(p, true));
    FirstIsPending(said.data, p, r);
    var answering := Step(said, Run(1, Some(0)));
    ReachesMore(start + [Respond(p, true)], said, Run(1, Some(0)));
    q := Step(answering, Run(1, None));
    ReachesMore(start + [Respond(p, true)] + [Run(1, Some(0))], answering, Run(1, None));
    events := start + [Respond(p, true)] + [Run(1, Some(0))] + [Run(1, None)];
  }

  lemma LoopLooks(start: seq<Event>, at: Queue, p: Player, r: Player) returns (looks: Queue)
    requires Reached(start) == Some(at) && at.threads == [Timeout(0, 0, Idle)]
    requires at.data.issued == [Issued(1, [p, r], map[])]
    ensures Reached(start + [Run(0, None)]) == Some(looks)
    ensures looks == at.(threads := [Timeout(0, 0, Looking(p, false))])
  {
    hide Reached, Player.Key;
    looks := Step(at, Run(0, None));
    ReachesMore(start, at, Run(0, None));
  }

  lemma FirstIsPending(d: Data, p: Player, r: Player)
    requires d.pending == map[1 := 0] && |d.issued| == 1 && d.issued[0].invited == [p, r]
    ensures PendingMatchFor(d, p, Some(0))
  {
    assert d.pending[1] == 0 && p in d.issued[0].invited;
  }
}
