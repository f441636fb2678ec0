/** The queue's shared state as the server keeps it (lolqueue-master/server.go): each method is one
    section that holds the lock, and does to the shared data what the protocol's step says. */
module QueueServer {
  import opened MapOrder
  import opened Matchmaking
  import opened Positions
  import opened Subsequences
  import opened Wrappers
  import P = QueueProtocol

  type Client = P.Client

  /** Where a match stands in the order of issue. */
  ghost function SerialOf(issued: seq<Match>, m: Match): (i: nat)
    requires m in issued
    ensures i < |issued| && issued[i] == m
  {
    var i :| 0 <= i < |issued| && issued[i] == m;
    i
  }

  ghost predicate AllDistinct(issued: seq<Match>) {
    forall i, j :: 0 <= i < j < |issued| ==> issued[i] != issued[j]
  }

  ghost function Serials(issued: seq<Match>, pending: map<int, Match>): map<int, nat>
    requires forall id <- pending :: pending[id] in issued
  {
    map id <- pending :: SerialOf(issued, pending[id])
  }

  lemma IssuingNumbersTheMatch(issued: seq<Match>, pending: map<int, Match>, m: Match, id: int)
    requires forall k <- pending :: pending[k] in issued
    requires AllDistinct(issued) && m !in issued
    ensures AllDistinct(issued + [m])
    ensures Serials(issued + [m], pending[id := m]) == Serials(issued, pending)[id := |issued|]
  {
    var later := issued + [m];
    forall k | k in pending && k != id ensures SerialOf(later, pending[k]) == SerialOf(issued, pending[k]) {
      assert later[SerialOf(issued, pending[k])] == pending[k];
    }
  }

  class State {
    var activePlayers: seq<Player>
    var clientsByPlayer: map<int, seq<Client>>
    var pendingInvitations: map<int, bool>
    var pendingMatches: map<int, Match>
    var matchID: int
    ghost var issued: seq<Match>

    ghost predicate Valid()
      reads this
    {
      && AllDistinct(issued)
      && (forall id <- pendingMatches :: pendingMatches[id] in issued)
    }

    /** The shared data, as the protocol sees it. */
    ghost function Data(): P.Data
      requires Valid()
      reads this, issued
    {
      P.Data(
        activePlayers,
        clientsByPlayer,
        pendingInvitations.Keys,
        Serials(issued, pendingMatches),
        matchID,
        seq(|issued|, i requires 0 <= i < |issued| reads this, issued => IssuedOf(issued[i])))
    }

    static ghost function IssuedOf(m: Match): P.Issued
      reads m
    {
      P.Issued(m.id, m.invited, m.accepted)
    }

    constructor ()
      ensures Valid() && Data() == P.INIT.data
    {
      activePlayers, clientsByPlayer, pendingInvitations, pendingMatches := [], map[], map[], map[];
      matchID, issued := 0, [];
    }

    method Add(client: Client)
      requires Valid()
      modifies this
      ensures Valid() && Data() == P.AddClient(old(Data()), client)
    {
      var id := client.player.summonerID;
      clientsByPlayer := clientsByPlayer[id := (if id in clientsByPlayer then clientsByPlayer[id] else []) + [client]];
    }

    method Remove(client: Client)
      requires Valid()
      modifies this
      ensures Valid() && Data() == P.RemoveClient(old(Data()), client)
    {
      var id := client.player.summonerID;
      var clients := if id in clientsByPlayer then clientsByPlayer[id] else [];
      if |clients| == 0 {
        return;
      }
      clients := WithoutClient(clients, client);
      clientsByPlayer := clientsByPlayer[id := clients];
      if |clients| > 0 {
        return;
      }
      clientsByPlayer := clientsByPlayer - {id};
      activePlayers := WithoutSummoner(activePlayers, id);
    }

    method Activate(p: Player)
      requires Valid()
      modifies this
      ensures Valid() && Data() == P.Activate(old(Data()), p)
    {
      for i := 0 to |activePlayers|
        invariant unchanged(this)
        invariant p.summonerID !in P.Ids(activePlayers[..i])
      {
        if activePlayers[i].summonerID == p.summonerID {
          return;
        }
        assert activePlayers[..i + 1] == activePlayers[..i] + [activePlayers[i]];
      }
      assert activePlayers[..|activePlayers|] == activePlayers;
      activePlayers := activePlayers + [p];
    }

    /** Some pending match that invites the player, whichever the map iteration meets first. */
    method PendingMatchFor(p: Player) returns (m: Match?)
      requires Valid()
      ensures m != null ==> m in issued
      ensures P.PendingMatchFor(Data(), p, if m == null then None else Some(SerialOf(issued, m)))
    {
      var found, id := FindInvitation(pendingMatches, p);
      ghost var d := Data();
      assert d.pending.Keys == pendingMatches.Keys;
      forall k | k in pendingMatches ensures d.issued[d.pending[k]].invited == pendingMatches[k].invited {
        assert d.pending[k] == SerialOf(issued, pendingMatches[k]);
      }
      m := null;
      if found {
        m := pendingMatches[id];
        assert id in d.pending && d.pending[id] == SerialOf(issued, m);
      }
    }

    /** Records an answer on the match itself, whether or not it is still pending. */
    method RecordAnswer(m: Match, p: Player, accept: bool)
      requires Valid() && m in issued
      modifies m
      ensures m.accepted == old(m.accepted)[p.Key() := accept] && m.id == old(m.id)
      ensures Valid() && Data() == P.Answer(old(Data()), SerialOf(issued, m), p, accept)
    {
      m.accepted := m.accepted[p.Key() := accept];
      assert forall i :: 0 <= i < |issued| && i != SerialOf(issued, m) ==> issued[i] != m;
    }

    /** The match is no longer pending, and its players may be invited again. */
    method Retire(id: int) returns (participants: seq<Player>)
      requires Valid() && id in pendingMatches
      modifies `pendingMatches, `pendingInvitations
      ensures Valid()
      ensures Data() == old(Data()).(
                        pending := old(Data().pending) - {id},
                        invitations := old(Data().invitations) - P.Ids(old(pendingMatches)[id].invited))
      ensures participants == Accepting(old(pendingMatches)[id].invited, old(pendingMatches)[id].accepted)
      ensures P.Gathers(participants, old(pendingMatches)[id].invited, old(pendingMatches)[id].accepted)
    {
      var m := pendingMatches[id];
      AcceptingGathers(m.invited, m.accepted);
      pendingMatches := pendingMatches - {id};
      participants, pendingInvitations := Settle(m.invited, m.accepted, pendingInvitations);
    }

    ghost function Invitees(id: int): set<Player>
      reads this
    {
      set p | id in pendingMatches && p in pendingMatches[id].invited
    }

    /** Retires the match once every invitee has answered. It gets made when those who accepted are
        still a viable group. */
    method CheckIfMatchMade(id: int) returns (participants: seq<Player>, made: Match?)
      requires Valid()
      modifies `pendingMatches, `pendingInvitations, Invitees(id)
      ensures Valid() && Data() == P.CheckIfMatchMade(old(Data()), id)
      ensures Data() == old(Data()) ==> participants == []
      ensures Data() != old(Data()) ==> id in old(pendingMatches)
      ensures Data() != old(Data()) ==>
                P.Gathers(participants, old(pendingMatches)[id].invited, old(pendingMatches)[id].accepted)
      ensures Data() != old(Data()) ==>
                participants == Accepting(old(pendingMatches)[id].invited, old(pendingMatches)[id].accepted)
      ensures made != null <==> Viable(Now(participants))
      ensures made != null ==> made.invited == participants
    {
      participants, made := [], null;
      if id !in pendingMatches {
        return;
      }
      var m := pendingMatches[id];
      ghost var d := Data();
      assert d.pending[id] == SerialOf(issued, m) && d.issued[d.pending[id]] == IssuedOf(m);
      if |m.accepted| != |m.invited| {
        return;
      }
      participants := Retire(id);
      AcceptingMembers(m.invited, m.accepted);
      assert forall o: object | o in participants :: o in old(Invitees(id));
      ghost var p0 := SnapshotAll(participants);
      made := IsViableMatch(participants, p0);
      TrackedIsDrifted(p0, participants);
      DriftKeepsViability(Profiles(p0, participants), Now(participants));
    }

    /** The players who may be invited now, in queue order. */
    ghost function Free(): seq<Player>
      reads this
    {
      P.Available(activePlayers, pendingInvitations.Keys)
    }

    /** Offers a match to a largest viable group headed by the longest-waiting player who can head
        one, or offers nothing when no group of free players is viable. */
    method LookForMatch() returns (found: bool, ghost head: nat)
      requires Valid()
      modifies this, set p <- activePlayers
      ensures Valid()
      ensures !found ==> Data() == old(Data())
      ensures !found ==> forall i :: 0 <= i < |old(Free())| ==>
                                       MaxHeadedBy(old(SnapshotAll(Free())), old(Free()), i) == 0
      ensures found ==> issued != [] && issued[..|issued| - 1] == old(issued)
      ensures found ==> Data() == P.Invite(old(Data()), issued[|issued| - 1].invited)
      ensures found ==> P.Offered(old(Data()), issued[|issued| - 1].invited)
      ensures found ==> head < |old(Free())|
      ensures found ==> HeadedByLongestWaiting(old(SnapshotAll(Free())), old(Free()), head,
                                               issued[|issued| - 1].invited)
    {
      var m;
      m, head := FindMatch();
      if m == null {
        return false, 0;
      }
      Issue(m);
      found := true;
    }

    /** The match to offer, if there is one; only the players' position lists are touched. */
    method FindMatch() returns (m: Match?, ghost head: nat)
      requires Valid()
      modifies set p <- activePlayers
      ensures Data() == old(Data())
      ensures m == null ==> forall i :: 0 <= i < |old(Free())| ==>
                                          MaxHeadedBy(old(SnapshotAll(Free())), old(Free()), i) == 0
      ensures m != null ==> fresh(m) && m.accepted == map[] && P.Offered(Data(), m.invited)
      ensures m != null ==> head < |old(Free())|
      ensures m != null ==> HeadedByLongestWaiting(old(SnapshotAll(Free())), old(Free()), head, m.invited)
    {
      head := 0;
      var active := NotInvited(activePlayers, pendingInvitations);
      P.AvailableIsSub(activePlayers, pendingInvitations.Keys);
      SubMembers(active, activePlayers);
      ghost var p0 := SnapshotAll(active);
      assert active == Free() && p0 == old(SnapshotAll(Free()));
      m := Make(active);
      assert forall k :: 0 <= k < |issued| ==> unchanged(issued[k]);
      if m != null {
        head :| 0 <= head < |active| && HeadedByLongestWaiting(p0, active, head, m.invited);
        OfferIsSelection(p0, active, head, m.invited);
      }
    }

    /** Numbers the match and marks everyone it invites. */
    method Issue(m: Match)
      requires Valid() && m !in issued && m.accepted == map[]
      modifies this, m
      ensures Valid() && issued == old(issued) + [m]
      ensures Data() == P.Invite(old(Data()), m.invited)
    {
      matchID := matchID % 10000000 + 1;
      m.id := matchID;
      pendingMatches := pendingMatches[m.id := m];
      issued := issued + [m];
      pendingInvitations := MarkInvited(m.invited, pendingInvitations);
      IssuingNumbersTheMatch(old(issued), old(pendingMatches), m, m.id);
      ghost var d := P.Invite(old(Data()), m.invited);
      assert Data().issued == d.issued;
    }

    /** An rsvp whose three steps are not interrupted: it finds the player's match, records the
        answer on it, and then checks whether that completed the match. */
    method Respond(p: Player, accept: bool) returns (ghost found: Option<nat>)
      requires Valid()
      modifies this, issued, set m <- issued, q <- m.invited :: q
      ensures Valid()
      ensures P.PendingMatchFor(old(Data()), p, found)
      ensures found.None? ==> Data() == old(Data())
      ensures found.Some? ==> found.value < |old(issued)|
      ensures found.Some? ==>
                old(issued)[found.value].accepted == old(Data()).issued[found.value].accepted[p.Key() := accept]
      ensures found.Some? ==>
                Data() == P.CheckIfMatchMade(P.Answer(old(Data()), found.value, p, accept),
                                             old(Data()).issued[found.value].id)
    {
      ghost var d := Data();
      var m := PendingMatchFor(p);
      if m == null {
        return None;
      }
      found := Some(SerialOf(issued, m));
      var id := m.id;
      assert d.issued[found.value].id == id;
      RecordAnswer(m, p, accept);
      assert Data() == P.Answer(d, found.value, p, accept);
      var participants, made := CheckIfMatchMade(id);
    }
  }

  method MarkInvited(invited: seq<Player>, invitations: map<int, bool>) returns (marked: map<int, bool>)
    ensures marked.Keys == invitations.Keys + P.Ids(invited)
  {
    marked := invitations;
    for k := 0 to |invited|
      invariant marked.Keys == invitations.Keys + P.Ids(invited[..k])
    {
      assert invited[..k + 1] == invited[..k] + [invited[k]];
      marked := marked[invited[k].summonerID := true];
    }
    assert invited[..|invited|] == invited;
  }

  method NotInvited(active: seq<Player>, invitations: map<int, bool>) returns (free: seq<Player>)
    ensures free == P.Available(active, invitations.Keys)
  {
    free := [];
    for i := 0 to |active|
      invariant free + P.Available(active[i..], invitations.Keys) == P.Available(active, invitations.Keys)
    {
      assert active[i..][1..] == active[i + 1..];
      if active[i].summonerID !in invitations {
        free := free + [active[i]];
      }
    }
  }

  /** Goes through the pending matches in any order. */
  method FindInvitation(pending: map<int, Match>, p: Player) returns (found: bool, id: int)
    ensures found ==> id in pending && p in pending[id].invited
    ensures !found ==> forall k <- pending :: p !in pending[k].invited
  {
    id := 0;
    var ids := pending.Keys;
    while ids != {}
      invariant ids <= pending.Keys
      invariant forall k <- pending :: k !in ids ==> p !in pending[k].invited
      decreases |ids|
    {
      id := Next(ids);
      ids := ids - {id};
      if p in pending[id].invited {
        return true, id;
      }
    }
    found := false;
  }

  /** The invitees who said yes, in the order of the invitation. */
  function Accepting(invited: seq<Player>, accepted: map<string, bool>): seq<Player> {
    if invited == [] then []
    else
      var rest := Accepting(invited[1..], accepted);
      var key := invited[0].Key();
      if key in accepted && accepted[key] then [invited[0]] + rest else rest
  }

  /** Releases the invitations of a match and gathers those who accepted. */
  method Settle(invited: seq<Player>, accepted: map<string, bool>, invitations: map<int, bool>)
    returns (participants: seq<Player>, left: map<int, bool>)
    ensures participants == Accepting(invited, accepted)
    ensures left == invitations - P.Ids(invited)
  {
    participants, left := [], invitations;
    for i := 0 to |invited|
      invariant left == invitations - P.Ids(invited[..i])
      invariant participants == Accepting(invited[..i], accepted)
    {
      var p := invited[i];
      assert invited[..i + 1] == invited[..i] + [p];
      AcceptingGrows(invited[..i], p, accepted);
      left := left - {p.summonerID};
      if p.Key() in accepted && accepted[p.Key()] {
        participants := participants + [p];
      }
    }
    assert invited[..|invited|] == invited;
  }

  lemma {:induction false} AcceptingGrows(invited: seq<Player>, p: Player, accepted: map<string, bool>)
    ensures Accepting(invited + [p], accepted) ==
            Accepting(invited, accepted) + (if p.Key() in accepted && accepted[p.Key()] then [p] else [])
  {
    if invited != [] {
      assert (invited + [p])[1..] == invited[1..] + [p];
      AcceptingGrows(invited[1..], p, accepted);
    }
  }

  /** The keys alone decide, also for an invitee who is listed twice. */
  lemma {:induction false} AcceptingGathers(invited: seq<Player>, accepted: map<string, bool>)
    ensures P.Gathers(Accepting(invited, accepted), invited, accepted)
  {
    hide Player.Key;
    if invited != [] {
      AcceptingGathers(invited[1..], accepted);
      AcceptingMembers(invited, accepted);
      AcceptingMembers(invited[1..], accepted);
    }
  }

  lemma {:induction false} AcceptingMembers(invited: seq<Player>, accepted: map<string, bool>)
    ensures IsSub(Accepting(invited, accepted), invited)
    ensures forall q <- Accepting(invited, accepted) :: q in invited
  {
    if invited != [] {
      AcceptingMembers(invited[1..], accepted);
      SubAmongMore(Accepting(invited[1..], accepted), invited);
    }
  }

  /** The session list without the first occurrence of a session. */
  method WithoutClient(clients: seq<Client>, client: Client) returns (left: seq<Client>)
    ensures left == P.RemoveFirst(clients, client)
  {
    for i := 0 to |clients|
      invariant client !in clients[..i]
    {
      if clients[i] == client {
        RemoveFirstAt(clients, client, i);
        return clients[..i] + clients[i + 1..];
      }
    }
    RemoveFirstAbsent(clients, client);
    return clients;
  }

  /** The queue without the first player of a summoner. */
  method WithoutSummoner(active: seq<Player>, id: int) returns (left: seq<Player>)
    ensures left == P.RemoveSummoner(active, id)
  {
    for i := 0 to |active|
      invariant id !in P.Ids(active[..i])
    {
      if active[i].summonerID == id {
        RemoveSummonerAt(active, id, i);
        return active[..i] + active[i + 1..];
      }
      assert active[..i + 1] == active[..i] + [active[i]];
    }
    assert active[..|active|] == active;
    RemoveSummonerAbsent(active, id);
    return active;
  }

  lemma {:induction false} RemoveFirstAt<T>(s: seq<T>, x: T, i: nat)
    requires i < |s| && s[i] == x && x !in s[..i]
    ensures P.RemoveFirst(s, x) == s[..i] + s[i + 1..]
  {
    if i > 0 {
      assert s[1..][..i - 1] == s[1..i];
      assert s[0] in s[..i];
      RemoveFirstAt(s[1..], x, i - 1);
      assert s[1..][..i - 1] + s[1..][i..] == s[1..i] + s[i + 1..];
    }
  }

  lemma {:induction false} RemoveFirstAbsent<T>(s: seq<T>, x: T)
    ensures x !in s ==> P.RemoveFirst(s, x) == s
  {
    if s != [] {
      RemoveFirstAbsent(s[1..], x);
    }
  }

  lemma {:induction false} RemoveSummonerAt(s: seq<Player>, id: int, i: nat)
    requires i < |s| && s[i].summonerID == id && id !in P.Ids(s[..i])
    ensures P.RemoveSummoner(s, id) == s[..i] + s[i + 1..]
  {
    if i > 0 {
      assert s[1..][..i - 1] == s[1..i];
      assert s[0] in s[..i];
      assert forall p <- s[1..i] :: p in s[..i];
      RemoveSummonerAt(s[1..], id, i - 1);
      assert s[1..][..i - 1] + s[1..][i..] == s[1..i] + s[i + 1..];
    }
  }

  lemma {:induction false} RemoveSummonerAbsent(s: seq<Player>, id: int)
    requires id !in P.Ids(s)
    ensures P.RemoveSummoner(s, id) == s
  {
    if s != [] {
      assert s[0] in s && forall p <- s[1..] :: p in s;
      RemoveSummonerAbsent(s[1..], id);
    }
  }
}
