/** The matchmaking queue as a protocol (lolqueue-master/server.go): every section that holds the
    lock is one atomic step on the shared data, and the goroutines that run several such sections
    (an rsvp, a match's timeout loop) are threads whose steps may interleave in any order. */
module QueueProtocol {
  import opened Matchmaking
  import opened Subsequences
  import opened Wrappers

  /** A websocket session of a player; one summoner may have several. */
  class Client {
    const player: Player

    constructor (player: Player)
      ensures this.player == player
    {
      this.player := player;
    }
  }

  /** A match that was offered, numbered by the order of issue: it keeps its identity after it
      stops being pending, and goroutines may still hold it then. */
  datatype Issued = Issued(id: int, invited: seq<Player>, accepted: map<string, bool>)

  datatype Data = Data(
    active: seq<Player>,
    clients: map<int, seq<Client>>,
    invitations: set<int>,
    pending: map<int, nat>,
    matchID: int,
    issued: seq<Issued>)

  const ID_LIMIT := 10000000

  // ---------- The sections that hold the lock ----------

  function Ids(group: seq<Player>): set<int> {
    set p <- group :: p.summonerID
  }

  function Keys(group: seq<Player>): set<string> {
    set p <- group :: p.Key()
  }

  function ClientsOf(d: Data, id: int): seq<Client> {
    if id in d.clients then d.clients[id] else []
  }

  function AddClient(d: Data, c: Client): Data {
    d.(clients := d.clients[c.player.summonerID := ClientsOf(d, c.player.summonerID) + [c]])
  }

  function RemoveFirst<T(==)>(s: seq<T>, x: T): seq<T> {
    if s == [] then [] else if s[0] == x then s[1..] else [s[0]] + RemoveFirst(s[1..], x)
  }

  function RemoveSummoner(active: seq<Player>, id: int): seq<Player> {
    if active == [] then []
    else if active[0].summonerID == id then active[1..]
    else [active[0]] + RemoveSummoner(active[1..], id)
  }

  /** The player leaves the queue with the last of his sessions. */
  function RemoveClient(d: Data, c: Client): Data {
    var id := c.player.summonerID;
    if ClientsOf(d, id) == [] then d
    else
      var left := RemoveFirst(ClientsOf(d, id), c);
      if left != [] then d.(clients := d.clients[id := left])
      else d.(clients := d.clients - {id}, active := RemoveSummoner(d.active, id))
  }

  function Activate(d: Data, p: Player): Data {
    if p.summonerID in Ids(d.active) then d else d.(active := d.active + [p])
  }

  /** The players who may be invited: those whose summoner has no invitation pending. */
  function Available(active: seq<Player>, invitations: set<int>): seq<Player> {
    if active == [] then []
    else
      var rest := Available(active[1..], invitations);
      if active[0].summonerID in invitations then rest else [active[0]] + rest
  }

  function NextID(d: Data): int {
    d.matchID % ID_LIMIT + 1
  }

  function Invite(d: Data, group: seq<Player>): Data {
    var id := NextID(d);
    d.(matchID := id,
    issued := d.issued + [Issued(id, group, map[])],
    pending := d.pending[id := |d.issued|],
    invitations := d.invitations + Ids(group))
  }

  function Answer(d: Data, serial: nat, p: Player, accept: bool): Data
    requires serial < |d.issued|
  {
    var m := d.issued[serial];
    d.(issued := d.issued[serial := m.(accepted := m.accepted[p.Key() := accept])])
  }

  /** Those of the invited whose keys have a yes on record, in the order of the invitation. */
  ghost predicate Gathers(participants: seq<Player>, invited: seq<Player>, accepted: map<string, bool>) {
    && IsSub(participants, invited)
    && forall p <- invited :: p in participants <==> p.Key() in accepted && accepted[p.Key()]
  }

  predicate Complete(m: Issued) {
    |m.accepted| == |m.invited|
  }

  /** A completely answered match stops being pending and releases its invitations. */
  function CheckIfMatchMade(d: Data, id: int): Data {
    if id in d.pending && d.pending[id] < |d.issued| && Complete(d.issued[d.pending[id]]) then
      d.(pending := d.pending - {id}, invitations := d.invitations - Ids(d.issued[d.pending[id]].invited))
    else d
  }

  /** The result of searching the pending matches for one that invites `p`. */
  ghost predicate PendingMatchFor(d: Data, p: Player, found: Option<nat>) {
    if found.Some? then
      exists id <- d.pending :: d.pending[id] == found.value && found.value < |d.issued|
                                && p in d.issued[found.value].invited
    else
      forall id <- d.pending :: d.pending[id] < |d.issued| ==> p !in d.issued[d.pending[id]].invited
  }

  // ---------- Goroutines ----------

  /** Where an rsvp stands: before finding its match, before recording the answer, before checking. */
  datatype Phase =
    | Idle
    | Looking(player: Player, accept: bool)
    | Answering(player: Player, serial: nat, accept: bool)
    | Checking(id: int)

  /** A player's rsvp, or the timeout loop of a match, which runs an rsvp for every silent invitee. */
  datatype Thread =
    | Rsvp(phase: Phase)
    | Timeout(serial: nat, next: nat, phase: Phase)
  {
    function Finish(): Thread {
      match this
      case Rsvp(_) => Rsvp(Idle)
      case Timeout(serial, next, _) => Timeout(serial, next + 1, Idle)
    }
  }

  datatype Queue = Queue(data: Data, threads: seq<Thread>)

  datatype Event =
    | Connect(client: Client)
    | Disconnect(client: Client)
    | Enter(player: Player)
    | Offer(group: seq<Player>)
    | Respond(player: Player, accept: bool)
    | Run(thread: nat, found: Option<nat>)

  const INIT := Queue(Data([], map[], {}, map[], 0, []), [])

  /** What may happen. An offered group is a selection of two to five available players, whichever
      the matchmaker picked. */
  ghost predicate Possible(q: Queue, e: Event) {
    match e
    case Offer(group) => Offered(q.data, group)
    case Run(t, found) => t < |q.threads| && CanRun(q.data, q.threads[t], found)
    case _ => true
  }

  /** What may happen while ids are not reused too early. */
  ghost predicate Enabled(q: Queue, e: Event) {
    Possible(q, e) && (e.Offer? ==> NextID(q.data) !in q.data.pending)
  }

  /** The next step of a goroutine, and what it may find when it looks for a match. */
  ghost predicate CanRun(d: Data, th: Thread, found: Option<nat>) {
    match th.phase
    case Idle => th.Timeout? && th.serial < |d.issued| && th.next < |d.issued[th.serial].invited|
    case Looking(p, _) => PendingMatchFor(d, p, found)
    case Answering(_, serial, _) => serial < |d.issued|
    case Checking(_) => true
  }

  ghost predicate Offered(d: Data, group: seq<Player>) {
    2 <= |group| <= 5 && IsSub(group, Available(d.active, d.invitations))
  }

  function RunThread(q: Queue, t: nat, found: Option<nat>): Queue
    requires Possible(q, Run(t, found))
  {
    var th := q.threads[t];
    match th.phase
    case Idle =>
      var p := q.data.issued[th.serial].invited[th.next];
      q.(threads := q.threads[t :=
      if p.Key() in q.data.issued[th.serial].accepted then th.Finish() else th.(phase := Looking(p, false))])
    case Looking(p, accept) =>
      q.(threads := q.threads[t :=
      if found.Some? then th.(phase := Answering(p, found.value, accept)) else th.Finish()])
    case Answering(p, serial, accept) =>
      Queue(Answer(q.data, serial, p, accept), q.threads[t := th.(phase := Checking(q.data.issued[serial].id))])
    case Checking(id) =>
      Queue(CheckIfMatchMade(q.data, id), q.threads[t := th.Finish()])
  }

  function Step(q: Queue, e: Event): Queue
    requires Possible(q, e)
  {
    match e
    case Connect(c) => q.(data := AddClient(q.data, c))
    case Disconnect(c) => q.(data := RemoveClient(q.data, c))
    case Enter(p) => q.(data := Activate(q.data, p))
    case Offer(group) => Queue(Invite(q.data, group), q.threads + [Timeout(|q.data.issued|, 0, Idle)])
    case Respond(p, accept) => q.(threads := q.threads + [Rsvp(Looking(p, accept))])
    case Run(t, found) => RunThread(q, t, found)
  }

  // ---------- The invariant ----------

  /** The match with this number is the one its id stands for. */
  predicate IsPending(d: Data, serial: nat) {
    serial < |d.issued| && d.issued[serial].id in d.pending && d.pending[d.issued[serial].id] == serial
  }

  function SummonerOf(p: Player): int {
    p.summonerID
  }

  ghost predicate IssuedOk(m: Issued, serial: nat) {
    && m.id == serial % ID_LIMIT + 1
    && 2 <= |m.invited| <= 5
    && DistinctBy(m.invited, SummonerOf)
    && m.accepted.Keys <= Keys(m.invited)
  }

  ghost predicate DataInv(d: Data) {
    && DistinctBy(d.active, SummonerOf)
    && d.matchID == (if d.issued == [] then 0 else (|d.issued| - 1) % ID_LIMIT + 1)
    && (forall s :: 0 <= s < |d.issued| ==> IssuedOk(d.issued[s], s))
    && (forall id <- d.pending :: d.pending[id] < |d.issued| && d.issued[d.pending[id]].id == id)
    && NoSharedInvitee(d)
    && InvitationsExact(d)
  }

  /** No summoner is invited to two pending matches. */
  ghost predicate NoSharedInvitee(d: Data) {
    forall s: nat, s': nat :: IsPending(d, s) && IsPending(d, s') && s != s' ==>
                                Ids(d.issued[s].invited) !! Ids(d.issued[s'].invited)
  }

  /** The invitations on record are those of the pending matches, no more and no fewer. */
  ghost predicate InvitationsExact(d: Data) {
    forall x :: x in d.invitations <==> exists s: nat :: IsPending(d, s) && x in Ids(d.issued[s].invited)
  }

  /** A match with every answer in is pending only while some rsvp has yet to run its check. */
  ghost predicate CheckOutstanding(q: Queue) {
    forall s: nat :: IsPending(q.data, s) && Complete(q.data.issued[s]) ==>
                       exists t :: 0 <= t < |q.threads| && q.threads[t].phase == Checking(q.data.issued[s].id)
  }

  ghost predicate ThreadOk(d: Data, th: Thread) {
    && (th.phase.Answering? ==> th.phase.serial < |d.issued| && th.phase.player in d.issued[th.phase.serial].invited)
    && match th {
         case Rsvp(_) => true
         case Timeout(serial, next, phase) =>
           && serial < |d.issued|
           && next <= |d.issued[serial].invited|
           && (!phase.Idle? ==> next < |d.issued[serial].invited|)
           && (phase.Looking? ==> phase.player == d.issued[serial].invited[next])
           && (IsPending(d, serial) ==> Asked(d.issued[serial], serial, next, phase))
       }
  }

  /** As long as the match is pending, every invitee its timeout loop has passed has answered. */
  ghost predicate Asked(m: Issued, serial: nat, next: nat, phase: Phase)
    requires next <= |m.invited| && (!phase.Idle? ==> next < |m.invited|)
  {
    && (forall j :: 0 <= j < next ==> m.invited[j].Key() in m.accepted)
    && (phase.Answering? ==> phase.serial == serial && phase.player == m.invited[next])
    && (phase.Checking? ==> m.invited[next].Key() in m.accepted)
  }

  /** Every match that was offered got its timeout loop. */
  ghost predicate TimeoutsStarted(q: Queue) {
    forall s: nat :: s < |q.data.issued| ==> HasTimeout(q.threads, s)
  }

  ghost predicate HasTimeout(threads: seq<Thread>, serial: nat) {
    exists th <- threads :: th.Timeout? && th.serial == serial
  }

  ghost predicate Inv(q: Queue) {
    && DataInv(q.data)
    && CheckOutstanding(q)
    && (forall th <- q.threads :: ThreadOk(q.data, th))
    && TimeoutsStarted(q)
  }

  // ---------- Every step keeps the invariant ----------

  lemma AvailableIsSub(active: seq<Player>, invitations: set<int>)
    ensures IsSub(Available(active, invitations), active)
    ensures Ids(Available(active, invitations)) !! invitations
    ensures forall p <- active :: p.summonerID !in invitations ==> p in Available(active, invitations)
  {
    if active != [] {
      AvailableIsSub(active[1..], invitations);
      SubAmongMore(Available(active[1..], invitations), active);
    }
  }

  /** Removing a summoner removes nobody else, and leaves no player of that summoner behind. */
  lemma {:induction false} RemoveSummonerFrom(active: seq<Player>, id: int)
    requires DistinctBy(active, SummonerOf)
    ensures DistinctBy(RemoveSummoner(active, id), SummonerOf)
    ensures forall p <- RemoveSummoner(active, id) :: p in active && p.summonerID != id
    ensures forall p <- active :: p.summonerID != id ==> p in RemoveSummoner(active, id)
  {
    if active != [] {
      var rest := active[1..];
      assert forall j :: 0 <= j < |rest| ==> rest[j] == active[j + 1];
      forall p | p in rest ensures SummonerOf(p) != SummonerOf(active[0]) {
        var j :| 0 <= j < |rest| && rest[j] == p;
        assert SummonerOf(active[0]) != SummonerOf(active[j + 1]);
      }
      if active[0].summonerID != id {
        assert DistinctBy(rest, SummonerOf);
        RemoveSummonerFrom(rest, id);
        forall p | p in RemoveSummoner(rest, id) ensures SummonerOf(p) != SummonerOf(active[0]) {
          assert p in rest;
        }
        DistinctCons(active[0], RemoveSummoner(rest, id), SummonerOf);
      }
    }
  }

  /** What one step can do to the matches already issued: answers are added, ids are retired. */
  ghost predicate Evolves(d: Data, d': Data) {
    && |d.issued| <= |d'.issued|
    && (forall s :: 0 <= s < |d.issued| ==>
                      && d'.issued[s].id == d.issued[s].id
                      && d'.issued[s].invited == d.issued[s].invited
                      && d.issued[s].accepted.Keys <= d'.issued[s].accepted.Keys)
    && (forall s: nat :: s < |d.issued| && IsPending(d', s) ==> IsPending(d, s))
  }

  lemma ThreadStaysOk(d: Data, d': Data, th: Thread)
    requires Evolves(d, d') && ThreadOk(d, th)
    ensures ThreadOk(d', th)
  {
  }

  lemma OfferedIsNew(d: Data, group: seq<Player>)
    requires DataInv(d) && Offered(d, group)
    ensures DistinctBy(group, SummonerOf) && Ids(group) !! d.invitations
  {
    AvailableIsSub(d.active, d.invitations);
    var free := Available(d.active, d.invitations);
    SubKeepsDistinct(free, d.active, SummonerOf);
    SubKeepsDistinct(group, free, SummonerOf);
    SubMembers(group, free);
    assert forall p <- group :: p.summonerID in Ids(free);
  }

  lemma InviteKeepsPending(d: Data, group: seq<Player>)
    requires DataInv(d) && NextID(d) !in d.pending
    ensures Evolves(d, Invite(d, group))
    ensures forall s: nat :: IsPending(Invite(d, group), s) <==> IsPending(d, s) || s == |d.issued|
  {
    var d' := Invite(d, group);
    forall s: nat ensures IsPending(d', s) <==> IsPending(d, s) || s == |d.issued| {
    }
  }

  lemma InviteKeepsExact(d: Data, group: seq<Player>)
    requires DataInv(d) && Offered(d, group) && NextID(d) !in d.pending
    ensures NoSharedInvitee(Invite(d, group)) && InvitationsExact(Invite(d, group))
  {
    var d' := Invite(d, group);
    OfferedIsNew(d, group);
    InviteKeepsPending(d, group);
    forall s: nat | IsPending(d, s) ensures Ids(d.issued[s].invited) <= d.invitations {
    }
    forall x ensures x in d'.invitations <==> exists s: nat :: IsPending(d', s) && x in Ids(d'.issued[s].invited) {
      if x in d.invitations {
        var s: nat :| IsPending(d, s) && x in Ids(d.issued[s].invited);
        assert IsPending(d', s) && d'.issued[s] == d.issued[s];
      } else if x in Ids(group) {
        assert IsPending(d', |d.issued|);
      }
    }
  }

  lemma InviteKeepsData(d: Data, group: seq<Player>)
    requires DataInv(d) && Offered(d, group) && NextID(d) !in d.pending
    ensures DataInv(Invite(d, group)) && Evolves(d, Invite(d, group))
  {
    OfferedIsNew(d, group);
    InviteKeepsPending(d, group);
    InviteKeepsExact(d, group);
  }

  lemma AnswerKeepsData(d: Data, serial: nat, p: Player, accept: bool)
    requires DataInv(d) && serial < |d.issued| && p in d.issued[serial].invited
    ensures DataInv(Answer(d, serial, p, accept)) && Evolves(d, Answer(d, serial, p, accept))
    ensures forall s: nat :: IsPending(Answer(d, serial, p, accept), s) <==> IsPending(d, s)
  {
    var d' := Answer(d, serial, p, accept);
    forall s: nat ensures IsPending(d', s) <==> IsPending(d, s) {
    }
  }

  lemma CheckKeepsData(d: Data, id: int)
    requires DataInv(d)
    ensures DataInv(CheckIfMatchMade(d, id)) && Evolves(d, CheckIfMatchMade(d, id))
    ensures forall s: nat :: IsPending(CheckIfMatchMade(d, id), s) <==>
                             IsPending(d, s) && !(d.issued[s].id == id && Complete(d.issued[s]))
  {
    var d' := CheckIfMatchMade(d, id);
    forall s: nat ensures IsPending(d', s) <==> IsPending(d, s) && !(d.issued[s].id == id && Complete(d.issued[s])) {
    }
  }

  lemma {:induction false} QueueChangeKeepsData(d: Data, d': Data)
    requires DataInv(d) && DistinctBy(d'.active, SummonerOf)
    requires d' == d.(active := d'.active, clients := d'.clients)
    ensures DataInv(d') && Evolves(d, d')
    ensures forall s: nat :: IsPending(d', s) <==> IsPending(d, s)
  {
    forall s: nat ensures IsPending(d', s) <==> IsPending(d, s) {
    }
  }

  lemma ClientsKeepData(d: Data, c: Client)
    requires DataInv(d)
    ensures DataInv(AddClient(d, c)) && Evolves(d, AddClient(d, c))
    ensures DataInv(RemoveClient(d, c)) && Evolves(d, RemoveClient(d, c))
  {
    RemoveSummonerFrom(d.active, c.player.summonerID);
    QueueChangeKeepsData(d, AddClient(d, c));
    QueueChangeKeepsData(d, RemoveClient(d, c));
  }

  lemma ActivateKeepsData(d: Data, p: Player)
    requires DataInv(d)
    ensures DataInv(Activate(d, p)) && Evolves(d, Activate(d, p))
  {
    assert forall q <- d.active :: SummonerOf(q) in Ids(d.active);
    QueueChangeKeepsData(d, Activate(d, p));
  }

  /** Threads other than those that moved stay as they should be. */
  lemma ThreadsStayOk(d: Data, d': Data, threads: seq<Thread>)
    requires Evolves(d, d') && forall th <- threads :: ThreadOk(d, th)
    ensures forall th <- threads :: ThreadOk(d', th)
  {
    forall th | th in threads ensures ThreadOk(d', th) {
      ThreadStaysOk(d, d', th);
    }
  }

  /** An rsvp sent by a match's own timeout loop finds that match, if it is still pending. */
  lemma LoopFindsItsMatch(d: Data, s: nat, p: Player, found: Option<nat>)
    requires DataInv(d) && IsPending(d, s) && p in d.issued[s].invited && PendingMatchFor(d, p, found)
    ensures found == Some(s)
  {
    assert found.Some?;
    assert IsPending(d, found.value);
    assert p.summonerID in Ids(d.issued[s].invited) && p.summonerID in Ids(d.issued[found.value].invited);
  }

  lemma RunEvolves(q: Queue, t: nat, found: Option<nat>)
    requires Inv(q) && Enabled(q, Run(t, found))
    ensures var q' := RunThread(q, t, found);
            && |q'.threads| == |q.threads|
            && (forall u :: 0 <= u < |q.threads| && u != t ==> q'.threads[u] == q.threads[u])
            && DataInv(q'.data) && Evolves(q.data, q'.data)
  {
    assert ThreadOk(q.data, q.threads[t]);
    match q.threads[t].phase
    case Idle =>
    case Looking(p, accept) =>
    case Answering(p, serial, accept) => AnswerKeepsData(q.data, serial, p, accept);
    case Checking(id) => CheckKeepsData(q.data, id);
  }

  lemma LookingThreadOk(d: Data, th: Thread, found: Option<nat>)
    requires DataInv(d) && ThreadOk(d, th) && th.phase.Looking? && PendingMatchFor(d, th.phase.player, found)
    ensures ThreadOk(d, if found.Some? then th.(phase := Answering(th.phase.player, found.value, th.phase.accept))
                     else th.Finish())
  {
    if th.Timeout? && IsPending(d, th.serial) {
      LoopFindsItsMatch(d, th.serial, th.phase.player, found);
    }
  }

  lemma AnsweringThreadOk(d: Data, th: Thread)
    requires DataInv(d) && ThreadOk(d, th) && th.phase.Answering?
    ensures var d' := Answer(d, th.phase.serial, th.phase.player, th.phase.accept);
            ThreadOk(d', th.(phase := Checking(d.issued[th.phase.serial].id)))
  {
    AnswerKeepsData(d, th.phase.serial, th.phase.player, th.phase.accept);
    ThreadStaysOk(d, Answer(d, th.phase.serial, th.phase.player, th.phase.accept), th);
  }

  lemma CheckingThreadOk(d: Data, th: Thread)
    requires DataInv(d) && ThreadOk(d, th) && th.phase.Checking?
    ensures ThreadOk(CheckIfMatchMade(d, th.phase.id), th.Finish())
  {
    CheckKeepsData(d, th.phase.id);
    ThreadStaysOk(d, CheckIfMatchMade(d, th.phase.id), th);
  }

  /** The thread that moves is still as it should be. */
  lemma MovedThreadOk(q: Queue, t: nat, found: Option<nat>)
    requires Inv(q) && Enabled(q, Run(t, found))
    ensures var q' := RunThread(q, t, found); t < |q'.threads| && ThreadOk(q'.data, q'.threads[t])
  {
    var d, th := q.data, q.threads[t];
    assert ThreadOk(d, th);
    match th.phase
    case Idle =>
    case Looking(_, _) => LookingThreadOk(d, th, found);
    case Answering(_, _, _) => AnsweringThreadOk(d, th);
    case Checking(_) => CheckingThreadOk(d, th);
  }

  /** A step of a thread makes no match pending, and changes a match only by answering it. */
  lemma {:induction false} RunLeavesPending(q: Queue, t: nat, found: Option<nat>, s: nat)
    requires Inv(q) && Enabled(q, Run(t, found)) && IsPending(RunThread(q, t, found).data, s)
    ensures IsPending(q.data, s)
    ensures !(q.threads[t].phase.Answering? && q.threads[t].phase.serial == s) ==>
              RunThread(q, t, found).data.issued[s] == q.data.issued[s]
  {
    hide DataInv, CheckOutstanding, TimeoutsStarted, Evolves;
    var th := q.threads[t];
    assert ThreadOk(q.data, th);
    match th.phase
    case Idle =>
    case Looking(p, accept) =>
    case Answering(p, serial, accept) => AnswerKeepsData(q.data, serial, p, accept);
    case Checking(id) => CheckKeepsData(q.data, id);
  }

  /** A thread that has answered goes on to check, and one that checks a match does not leave it answered. */
  lemma {:induction false} AnswererChecks(q: Queue, t: nat, found: Option<nat>, s: nat)
    requires Inv(q) && Enabled(q, Run(t, found)) && IsPending(RunThread(q, t, found).data, s)
    ensures var q' := RunThread(q, t, found);
            && (q.threads[t].phase.Answering? && q.threads[t].phase.serial == s ==>
                  q'.threads[t].phase == Checking(q'.data.issued[s].id))
            && (q.threads[t].phase == Checking(q.data.issued[s].id) ==> !Complete(q.data.issued[s]))
  {
    hide DataInv, CheckOutstanding, TimeoutsStarted, Evolves;
    RunLeavesPending(q, t, found, s);
    if q.threads[t].phase.Checking? {
      CheckKeepsData(q.data, q.threads[t].phase.id);
    }
  }

  lemma {:induction false} RunKeepsChecks(q: Queue, t: nat, found: Option<nat>)
    requires Inv(q) && Enabled(q, Run(t, found))
    ensures CheckOutstanding(RunThread(q, t, found))
  {
    var q' := RunThread(q, t, found);
    RunEvolves(q, t, found);
    hide RunThread, DataInv, TimeoutsStarted, Evolves, ThreadOk;
    forall s: nat | IsPending(q'.data, s) && Complete(q'.data.issued[s])
      ensures exists u :: 0 <= u < |q'.threads| && q'.threads[u].phase == Checking(q'.data.issued[s].id)
    {
      RunLeavesPending(q, t, found, s);
      AnswererChecks(q, t, found, s);
      if q.threads[t].phase.Answering? && q.threads[t].phase.serial == s {
        assert q'.threads[t].phase == Checking(q'.data.issued[s].id);
      } else {
        var u :| 0 <= u < |q.threads| && q.threads[u].phase == Checking(q.data.issued[s].id);
        assert u != t && q'.threads[u] == q.threads[u];
      }
    }
  }

  lemma {:induction false} RunKeepsInv(q: Queue, t: nat, found: Option<nat>)
    requires Inv(q) && Enabled(q, Run(t, found))
    ensures Inv(RunThread(q, t, found))
  {
    var q' := RunThread(q, t, found);
    RunEvolves(q, t, found);
    MovedThreadOk(q, t, found);
    RunKeepsChecks(q, t, found);
    ThreadsStayOk(q.data, q'.data, q.threads);
    forall th | th in q'.threads ensures ThreadOk(q'.data, th) {
      var u :| 0 <= u < |q'.threads| && q'.threads[u] == th;
      assert u != t ==> th in q.threads;
    }
    forall s: nat | s < |q'.data.issued| ensures HasTimeout(q'.threads, s) {
      assert |q'.data.issued| == |q.data.issued| && HasTimeout(q.threads, s);
      TimeoutKeepsRunning(q, t, found, s);
    }
  }

  lemma TimeoutKeepsRunning(q: Queue, t: nat, found: Option<nat>, s: nat)
    requires Inv(q) && Enabled(q, Run(t, found)) && HasTimeout(q.threads, s)
    ensures HasTimeout(RunThread(q, t, found).threads, s)
  {
    RunEvolves(q, t, found);
    var th :| th in q.threads && th.Timeout? && th.serial == s;
    var u :| 0 <= u < |q.threads| && q.threads[u] == th;
    assert RunThread(q, t, found).threads[u] in RunThread(q, t, found).threads;
  }

  lemma OfferKeepsInv(q: Queue, group: seq<Player>)
    requires Inv(q) && Enabled(q, Offer(group))
    ensures Inv(Step(q, Offer(group)))
  {
    var q' := Step(q, Offer(group));
    InviteKeepsData(q.data, group);
    InviteKeepsPending(q.data, group);
    ThreadsStayOk(q.data, q'.data, q.threads);
    var own := Timeout(|q.data.issued|, 0, Idle);
    assert q'.threads[|q.threads|] == own;
    assert forall th :: th in q'.threads <==> th in q.threads || th == own;
    forall s: nat | IsPending(q'.data, s) && Complete(q'.data.issued[s])
      ensures exists t :: 0 <= t < |q'.threads| && q'.threads[t].phase == Checking(q'.data.issued[s].id)
    {
      assert IsPending(q.data, s) && q'.data.issued[s] == q.data.issued[s];
      var t :| 0 <= t < |q.threads| && q.threads[t].phase == Checking(q.data.issued[s].id);
      assert q'.threads[t] == q.threads[t];
    }
    forall s: nat | s < |q'.data.issued| ensures HasTimeout(q'.threads, s) {
      if s < |q.data.issued| {
        assert HasTimeout(q.threads, s);
      }
    }
  }

  /** A step that leaves pending matches alone and at most adds a thread of an rsvp. */
  lemma QuietStepKeepsInv(q: Queue, q': Queue)
    requires Inv(q) && DataInv(q'.data) && Evolves(q.data, q'.data)
    requires q'.data.issued == q.data.issued && q'.data.pending == q.data.pending
    requires q.threads <= q'.threads
    requires forall th <- q'.threads :: th in q.threads || (th.Rsvp? && th.phase.Looking?)
    ensures Inv(q')
  {
    ThreadsStayOk(q.data, q'.data, q.threads);
    forall s: nat | IsPending(q'.data, s) && Complete(q'.data.issued[s])
      ensures exists t :: 0 <= t < |q'.threads| && q'.threads[t].phase == Checking(q'.data.issued[s].id)
    {
      assert IsPending(q.data, s);
      var t :| 0 <= t < |q.threads| && q.threads[t].phase == Checking(q.data.issued[s].id);
      assert q'.threads[t] == q.threads[t];
    }
    forall s: nat | s < |q'.data.issued| ensures HasTimeout(q'.threads, s) {
      assert HasTimeout(q.threads, s);
    }
  }

  lemma StepKeepsInv(q: Queue, e: Event)
    requires Inv(q) && Enabled(q, e)
    ensures Inv(Step(q, e))
  {
    match e
    case Connect(c) =>
      ClientsKeepData(q.data, c);
      QuietStepKeepsInv(q, Step(q, e));
    case Disconnect(c) =>
      ClientsKeepData(q.data, c);
      QuietStepKeepsInv(q, Step(q, e));
    case Enter(p) =>
      ActivateKeepsData(q.data, p);
      QuietStepKeepsInv(q, Step(q, e));
    case Respond(_, _) =>
      QuietStepKeepsInv(q, Step(q, e));
    case Offer(group) =>
      OfferKeepsInv(q, group);
    case Run(t, found) =>
      RunKeepsInv(q, t, found);
  }

  // ---------- Whole runs ----------

  /** No match is still pending while ten million newer ones are offered. */
  ghost predicate Timely(d: Data) {
    forall s: nat :: IsPending(d, s) ==> |d.issued| - s < ID_LIMIT
  }

  /** A run whose offers are all made in time. */
  ghost predicate TimelyRun(q: Queue, events: seq<Event>, q': Queue)
    decreases |events|
  {
    if events == [] then q == q'
    else
      && Possible(q, events[0])
      && (events[0].Offer? ==> Timely(q.data))
      && TimelyRun(Step(q, events[0]), events[1..], q')
  }

  lemma InitIsFine()
    ensures Inv(INIT)
  {
  }

  lemma {:induction false} RunsKeepInv(q: Queue, events: seq<Event>, q': Queue)
    requires Inv(q) && TimelyRun(q, events, q')
    ensures Inv(q')
    decreases |events|
  {
    if events != [] {
      if events[0].Offer? {
        IdsLastTenMillionOffers(q.data);
      }
      StepKeepsInv(q, events[0]);
      RunsKeepInv(Step(q, events[0]), events[1..], q');
    }
  }

  /** In every timely run from the empty queue: no summoner queues twice, no summoner is invited to two
      pending matches, the invitations on record are exactly those of the pending matches, and a match
      that everyone has answered is pending only while some rsvp has yet to check it. */
  lemma RunsAreSafe(events: seq<Event>, q: Queue)
    requires TimelyRun(INIT, events, q)
    ensures DistinctBy(q.data.active, SummonerOf)
    ensures NoSharedInvitee(q.data) && InvitationsExact(q.data)
    ensures CheckOutstanding(q)
  {
    InitIsFine();
    RunsKeepInv(INIT, events, q);
  }

  // ---------- What becomes of a match ----------

  /** The timeout loop of match `serial` has run to its end. */
  ghost predicate LoopFinished(q: Queue, serial: nat)
    requires serial < |q.data.issued|
  {
    exists th <- q.threads :: th == Timeout(serial, |q.data.issued[serial].invited|, Idle)
  }

  predicate NobodyChecking(q: Queue, id: int) {
    forall th <- q.threads :: th.phase != Checking(id)
  }

  predicate DistinctKeys(group: seq<Player>) {
    forall i, j :: 0 <= i < j < |group| ==> group[i].Key() != group[j].Key()
  }

  /** Once its timeout loop and the checks of its id are through, a match is no longer pending, so
      only newer matches can still hold an invitation for its players. */
  lemma MatchesResolve(q: Queue, serial: nat)
    requires Inv(q) && serial < |q.data.issued| && DistinctKeys(q.data.issued[serial].invited)
    requires LoopFinished(q, serial) && NobodyChecking(q, q.data.issued[serial].id)
    ensures !IsPending(q.data, serial)
    ensures forall x | x in Ids(q.data.issued[serial].invited) && x in q.data.invitations ::
              exists s: nat :: s != serial && IsPending(q.data, s) && x in Ids(q.data.issued[s].invited)
  {
    if IsPending(q.data, serial) {
      EveryoneAnswered(q, serial);
    }
  }

  lemma EveryoneAnswered(q: Queue, serial: nat)
    requires Inv(q) && IsPending(q.data, serial) && LoopFinished(q, serial)
    requires DistinctKeys(q.data.issued[serial].invited)
    ensures Complete(q.data.issued[serial])
  {
    var m := q.data.issued[serial];
    assert forall j :: 0 <= j < |m.invited| ==> m.invited[j].Key() in m.accepted;
    assert m.accepted.Keys == Keys(m.invited);
    KeysCounted(m.invited);
  }

  lemma KeysGrow(front: seq<Player>, last: Player)
    ensures Keys(front + [last]) == Keys(front) + {last.Key()}
    ensures DistinctKeys(front + [last]) <==> DistinctKeys(front) && last.Key() !in Keys(front)
  {
    var group := front + [last];
    if DistinctKeys(front) && last.Key() !in Keys(front) {
      forall i, j | 0 <= i < j < |group|
        ensures group[i].Key() != group[j].Key()
      {
        assert front[i].Key() in Keys(front);
      }
    }
    if DistinctKeys(group) {
      assert forall i :: 0 <= i < |front| ==> front[i] == group[i];
      assert forall i :: 0 <= i < |front| ==> group[i].Key() != group[|front|].Key();
    }
  }

  /** Distinct keys are as many as the players who bear them; with a repeated key they are fewer. */
  lemma {:induction false} KeysCounted(group: seq<Player>)
    ensures |Keys(group)| <= |group|
    ensures |Keys(group)| == |group| <==> DistinctKeys(group)
  {
    if group != [] {
      var front, last := group[..|group| - 1], group[|group| - 1];
      KeysCounted(front);
      KeysGrow(front, last);
      assert group == front + [last];
    }
  }

  /** Two invitees who share a key can never both be counted: the match stays pending for good,
      and so do the invitations of all its players. */
  lemma SharedKeyNeverResolves(q: Queue, e: Event, serial: nat)
    requires Inv(q) && Enabled(q, e) && IsPending(q.data, serial)
    requires !DistinctKeys(q.data.issued[serial].invited)
    ensures IsPending(Step(q, e).data, serial)
    ensures Step(q, e).data.issued[serial].invited == q.data.issued[serial].invited
    ensures Ids(q.data.issued[serial].invited) <= Step(q, e).data.invitations
  {
    var m := q.data.issued[serial];
    KeysCounted(m.invited);
    CardinalityOfSubset(m.accepted.Keys, Keys(m.invited));
    assert !Complete(m);
    StepKeepsInv(q, e);
    var d' := Step(q, e).data;
    match e {
      case Offer(group) => InviteKeepsPending(q.data, group);
      case Run(t, found) => RunEvolves(q, t, found);
      case _ =>
    }
    assert IsPending(d', serial) && d'.issued[serial].invited == m.invited;
    assert forall x <- Ids(m.invited) :: x in d'.invitations;
  }

  /** Nor does it over any further run. */
  lemma {:induction false} SharedKeyStaysPending(q: Queue, events: seq<Event>, q': Queue, serial: nat)
    requires Inv(q) && TimelyRun(q, events, q') && IsPending(q.data, serial)
    requires !DistinctKeys(q.data.issued[serial].invited)
    ensures IsPending(q'.data, serial) && Ids(q.data.issued[serial].invited) <= q'.data.invitations
    decreases |events|
  {
    hide DataInv, CheckOutstanding, TimeoutsStarted, ThreadOk, DistinctKeys, Timely;
    if events == [] {
      InvitationsOfPending(q, serial);
    } else {
      if events[0].Offer? {
        IdsLastTenMillionOffers(q.data);
      }
      SharedKeyNeverResolves(q, events[0], serial);
      StepKeepsInv(q, events[0]);
      SharedKeyStaysPending(Step(q, events[0]), events[1..], q', serial);
    }
  }

  lemma InvitationsOfPending(q: Queue, serial: nat)
    requires Inv(q) && IsPending(q.data, serial)
    ensures Ids(q.data.issued[serial].invited) <= q.data.invitations
  {
    assert forall x <- Ids(q.data.issued[serial].invited) :: x in q.data.invitations;
  }

  /** Two players with one key, such as the same name in two spellings: they queue, are offered a match, and
      stay invited to it for good. */
  lemma {:induction false} SharedKeyIsReached(p: Player, r: Player)
    requires p.Key() == r.Key() && p.summonerID != r.summonerID
    ensures var events := [Enter(p), Enter(r), Offer([p, r])];
            exists q: Queue :: TimelyRun(INIT, events, q) && Inv(q) && IsPending(q.data, 0)
                               && q.data.issued[0].invited == [p, r] && !DistinctKeys([p, r])
  {
    hide Inv, DataInv, CheckOutstanding, TimeoutsStarted;
    InitIsFine();
    var events := [Enter(p), Enter(r), Offer([p, r])];
    var one := Step(INIT, Enter(p));
    var two := Step(one, Enter(r));
    assert two.data.active == [p, r];
    assert Available([r][1..], {}) == [] && Available([p, r][1..], {}) == [r];
    assert Available(two.data.active, {}) == [p, r];
    SubOfItself([p, r]);
    var three := Step(two, Offer([p, r]));
    assert IsPending(three.data, 0) by {
      assert three.data.pending[1] == 0;
    }
    assert [p, r][0].Key() == [p, r][1].Key();
    assert events[1..] == [Enter(r), Offer([p, r])] && events[1..][1..] == [Offer([p, r])];
    assert TimelyRun(three, [], three) && TimelyRun(two, [Offer([p, r])], three) by {
      assert [Offer([p, r])][1..] == [];
    }
    assert TimelyRun(one, events[1..], three);
    assert TimelyRun(INIT, events, three);
    RunsKeepInv(INIT, events, three);
  }

  lemma {:induction false} CardinalityOfSubset<T>(a: set<T>, b: set<T>)
    requires a <= b
    ensures |a| <= |b|
  {
    if a != {} {
      var x :| x in a;
      CardinalityOfSubset(a - {x}, b - {x});
    }
  }

  // ---------- Reusing ids ----------

  /** Offering a match keeps the records exact if and only if its id is not that of a match that is
      still pending: overwriting such a match leaves its invitations behind with nobody to release them. */
  lemma ExactUnlessIdReused(d: Data, group: seq<Player>)
    requires DataInv(d) && Offered(d, group)
    ensures DataInv(Invite(d, group)) <==> NextID(d) !in d.pending
  {
    var d' := Invite(d, group);
    if NextID(d) !in d.pending {
      InviteKeepsData(d, group);
    } else {
      var lost := d.pending[NextID(d)];
      var x := d.issued[lost].invited[0].summonerID;
      assert IsPending(d, lost) && x in Ids(d.issued[lost].invited);
      OfferedIsNew(d, group);
      assert x in d'.invitations;
      forall s: nat | IsPending(d', s) ensures x !in Ids(d'.issued[s].invited) {
        if s < |d.issued| {
          assert IsPending(d, s) && s != lost && d'.issued[s] == d.issued[s];
        } else {
          assert d'.issued[s].invited == group;
        }
      }
    }
  }

  /** Ids are reused only after ten million offers: if no match stays pending for that long, the
      next id is free. */
  lemma IdsLastTenMillionOffers(d: Data)
    requires DataInv(d) && Timely(d)
    ensures NextID(d) !in d.pending
  {
    hide DataInv, Timely, NextID;
    forall id | id in d.pending
      ensures id != NextID(d)
    {
      IdOfPending(d, id);
      ResiduesDiffer(d.pending[id], |d.issued|);
      NextIdCounts(d);
    }
  }

  lemma NextIdCounts(d: Data)
    requires DataInv(d)
    ensures NextID(d) == |d.issued| % ID_LIMIT + 1
  {
  }

  lemma IdOfPending(d: Data, id: int)
    requires DataInv(d) && Timely(d) && id in d.pending
    ensures d.pending[id] < |d.issued| < d.pending[id] + ID_LIMIT && id == d.pending[id] % ID_LIMIT + 1
  {
    var s := d.pending[id];
    assert IsPending(d, s) && IssuedOk(d.issued[s], s);
  }

  lemma ResiduesDiffer(a: nat, b: nat)
    requires 0 < b - a < ID_LIMIT
    ensures a % ID_LIMIT != b % ID_LIMIT
  {
    var x, y := a / ID_LIMIT, b / ID_LIMIT;
    assert a == x * ID_LIMIT + a % ID_LIMIT && b == y * ID_LIMIT + b % ID_LIMIT;
  }

  /** No goroutine is ever stuck: in every state a run reaches, each one that is not finished can
      take its next step. */
  lemma NoThreadIsStuck(q: Queue, t: nat)
    requires Inv(q) && t < |q.threads|
    requires !(q.threads[t].Rsvp? && q.threads[t].phase.Idle?)
    requires forall s: nat :: s < |q.data.issued| ==> q.threads[t] != Timeout(s, |q.data.issued[s].invited|, Idle)
    ensures exists found :: Enabled(q, Run(t, found))
  {
    var th := q.threads[t];
    assert ThreadOk(q.data, th);
    if th.phase.Looking? {
      var p := th.phase.player;
      if id :| id in q.data.pending && p in q.data.issued[q.data.pending[id]].invited {
        assert PendingMatchFor(q.data, p, Some(q.data.pending[id]));
        assert Enabled(q, Run(t, Some(q.data.pending[id])));
      } else {
        assert PendingMatchFor(q.data, p, None);
        assert Enabled(q, Run(t, None));
      }
    } else {
      assert Enabled(q, Run(t, None));
    }
  }
}
