/** Updating the goals of a player after a match (lolstats-master/cmd/goals_updater/goals_updater.go). */
module Goals {
  import opened Basics
  import opened Decimal
  import opened Wrappers
  import MapOrder

  datatype Status = StatusNone | New | Accepted | Completed | Cancelled | CompletedSeen

  datatype Comparator = GreaterThan | GreaterThanOrEqual | LessThanOrEqual | LessThan | Other

  datatype Goal = Goal(
    summonerId: int, platform: string, role: string, championId: int, stat: string, created: int,
    status: Status, target: real, comparator: Comparator, count: int, targetCount: int,
    category: string, lastValue: real, lastMatchId: int)

  type Rows = map<string, Goal>

  datatype Message = Message(matchId: int, summonerId: int, platform: string, role: string, championId: int) {
    predicate Valid() {
      matchId != 0 && platform != "" && summonerId != 0 && role != ""
    }

    function Prefix(): string {
      KeyPrefix(summonerId, platform, role, championId)
    }
  }

  function KeyPrefix(summonerId: int, platform: string, role: string, championId: int): string {
    Print(summonerId) + "-" + (platform + "-" + (role + "-" + Print(championId)))
  }

  function Id(g: Goal): string {
    KeyPrefix(g.summonerId, g.platform, g.role, g.championId) + ("-" + g.stat + "-" + Print(g.created))
  }

  /** Every goal is stored under its own id. */
  predicate Consistent(rows: Rows) {
    forall id <- rows :: Id(rows[id]) == id
  }

  // ---------- Key ranges ----------

  predicate InKeyRange(prefix: string, key: string) {
    Before(prefix, key) && Before(key, prefix + "0")
  }

  /** A key is found exactly if it continues the prefix with a character before '0', such as a hyphen. */
  lemma {:induction false} KeyRangeIsPrefix(prefix: string, key: string)
    ensures InKeyRange(prefix, key) <==> prefix < key && key[|prefix|] < '0'
  {
    if prefix == "" {
      assert prefix + "0" == "0";
      assert key != "" ==> (Before(key, "0") <==> key[0] < '0' || (key[0] == '0' && Before(key[1..], ""))) by {
        assert "0"[1..] == "";
      }
    } else if key != "" {
      assert (prefix + "0")[1..] == prefix[1..] + "0";
      if prefix[0] == key[0] {
        KeyRangeIsPrefix(prefix[1..], key[1..]);
        assert prefix < key <==> prefix[1..] < key[1..] by {
          assert prefix == [prefix[0]] + prefix[1..] && key == [key[0]] + key[1..];
        }
      }
    }
  }

  /** No hyphens in the parts of an id that come before the statistic, apart from those between them. */
  predicate Plain(platform: string, role: string, championId: int) {
    '-' !in platform && '-' !in role && 0 <= championId
  }

  lemma DigitBehind(a: string, x: string, b: string, y: string)
    requires a + x == b + y && |a| < |b| && x != "" && forall c <- b :: IsDigit(c)
    ensures IsDigit(x[0])
  {
    assert (a + x)[|a|] == x[0] && (b + y)[|a|] == b[|a|];
  }

  lemma DigitsEnd(c: nat, x: string, c': nat, y: string)
    requires PrintNat(c) + x == PrintNat(c') + y
    requires x != "" && y != "" && !IsDigit(x[0]) && !IsDigit(y[0])
    ensures c == c' && x == y
  {
    hide PrintNat;
    var a, b, s := PrintNat(c), PrintNat(c'), PrintNat(c) + x;
    if |a| < |b| {
      DigitBehind(a, x, b, y);
    } else if |b| < |a| {
      DigitBehind(b, y, a, x);
    }
    assert a == s[..|a|] && b == s[..|b|];
    PrintNatIsInjective(c, c');
  }

  /** The goals found for a message are exactly those of its summoner, platform, role and champion. */
  lemma FoundGoalsAreOwn(msg: Message, g: Goal)
    requires Plain(msg.platform, msg.role, msg.championId) && Plain(g.platform, g.role, g.championId)
    ensures InKeyRange(msg.Prefix(), Id(g)) <==>
            && g.summonerId == msg.summonerId && g.platform == msg.platform
            && g.role == msg.role && g.championId == msg.championId
  {
    hide Print, PrintNat;
    var id, prefix := Id(g), msg.Prefix();
    KeyRangeIsPrefix(prefix, id);
    var end := "-" + g.stat + "-" + Print(g.created);
    if prefix < id && id[|prefix|] < '0' {
      var tail := id[|prefix|..];
      OwnFields(msg, g, tail, end);
    }
  }

  lemma OwnFields(msg: Message, g: Goal, tail: string, end: string)
    requires Plain(msg.platform, msg.role, msg.championId) && Plain(g.platform, g.role, g.championId)
    requires msg.Prefix() + tail == KeyPrefix(g.summonerId, g.platform, g.role, g.championId) + end
    requires tail != "" && tail[0] < '0' && end != "" && end[0] == '-'
    ensures g.summonerId == msg.summonerId && g.platform == msg.platform
    ensures g.role == msg.role && g.championId == msg.championId
  {
    hide Print, PrintNat;
    var x1, y1 := Print(msg.championId) + tail, Print(g.championId) + end;
    var x2, y2 := msg.role + "-" + x1, g.role + "-" + y1;
    var x3, y3 := msg.platform + "-" + x2, g.platform + "-" + y2;
    assert msg.Prefix() + tail == Print(msg.summonerId) + "-" + x3;
    assert KeyPrefix(g.summonerId, g.platform, g.role, g.championId) + end == Print(g.summonerId) + "-" + y3;
    FieldIsDetermined(msg.summonerId, x3, g.summonerId, y3);
    SplitAtFirst(msg.platform, x2, g.platform, y2);
    SplitAtFirst(msg.role, x1, g.role, y1);
    PrintIsSigned(msg.championId);
    PrintIsSigned(g.championId);
    assert "" + PrintNat(msg.championId) == PrintNat(msg.championId);
    assert "" + PrintNat(g.championId) == PrintNat(g.championId);
    DigitsEnd(msg.championId, tail, g.championId, end);
  }

  // ---------- What a message does ----------

  /** The goals that are read for a message: completed ones are left alone. */
  predicate IsOpen(rows: Rows, prefix: string, id: string) {
    id in rows && InKeyRange(prefix, id) && rows[id].status != Completed && rows[id].status != CompletedSeen
  }

  /** What the game says about each statistic, or nothing for a statistic without a per-game value. */
  type Stats = string -> Option<real>

  /** Which open goals count this game. */
  predicate IsDue(g: Goal, msg: Message, known: set<string>) {
    && g.role == msg.role && g.championId == msg.championId
    && g.stat in known && g.status == Accepted
    && (g.lastMatchId == 0 || g.lastMatchId != msg.matchId)
  }

  predicate IsBreach(g: Goal, value: real) {
    match g.comparator
    case GreaterThan => value > g.target
    case GreaterThanOrEqual => value >= g.target
    case LessThanOrEqual => value <= g.target
    case LessThan => value < g.target
    case Other => false
  }

  function Updated(g: Goal, msg: Message, value: real): Goal {
    var h := g.(lastValue := value, lastMatchId := msg.matchId);
    if !IsBreach(g, value) then h
    else if g.count + 1 == g.targetCount then h.(count := g.count + 1, status := Completed)
    else h.(count := g.count + 1)
  }

  function ValueOf(stats: Stats, stat: string): real {
    match stats(stat)
    case Some(value) => value
    case None => 0.0
  }

  /** The goals that a message updates. */
  ghost function Due(rows: Rows, msg: Message, known: set<string>): set<string> {
    set id <- rows | IsOpen(rows, msg.Prefix(), id) && IsDue(rows[id], msg, known)
  }

  function After(g: Goal, msg: Message, stats: Stats): Goal {
    Updated(g, msg, ValueOf(stats, g.stat))
  }

  /** The rows once the goals in `ids` are updated. */
  ghost function Written(rows: Rows, msg: Message, stats: Stats, ids: set<string>): Rows {
    map id <- rows :: if id in ids then After(rows[id], msg, stats) else rows[id]
  }

  /** The goals among `ids` that the update completes. */
  ghost function Finished(rows: Rows, msg: Message, stats: Stats, ids: set<string>): set<string> {
    set id <- rows | id in ids && After(rows[id], msg, stats).status == Completed
  }

  ghost function Categories(rows: Rows, ids: set<string>): set<string> {
    set id <- rows | id in ids :: rows[id].category
  }

  /** The open goals whose category has a goal in `finished`, which themselves are not. */
  ghost function Doomed(rows: Rows, prefix: string, finished: set<string>): set<string> {
    set id <- rows | IsOpen(rows, prefix, id) && id !in finished && rows[id].category in Categories(rows, finished)
  }

  /** The rows after a message was handled with success. */
  ghost function Handled(rows: Rows, msg: Message, stats: Stats, known: set<string>): Rows {
    var due := Due(rows, msg, known);
    var finished := Finished(rows, msg, stats, due);
    Written(rows, msg, stats, due) - Doomed(rows, msg.Prefix(), finished)
  }

  // ---------- Properties ----------

  /** An update leaves everything alone that the id is made of, so goals stay under their ids. */
  lemma HandledIsConsistent(rows: Rows, msg: Message, stats: Stats, known: set<string>)
    requires Consistent(rows)
    ensures Consistent(Handled(rows, msg, stats, known))
  {
    hide Id, Updated, Due, Finished, Doomed;
    var after := Handled(rows, msg, stats, known);
    forall id | id in after
      ensures Id(after[id]) == id
    {
      UpdateKeepsId(rows[id], msg, ValueOf(stats, rows[id].stat));
    }
  }

  /** The same message handled a second time changes nothing. */
  lemma HandledTwice(rows: Rows, msg: Message, stats: Stats, stats': Stats, known: set<string>)
    requires msg.Valid()
    ensures var once := Handled(rows, msg, stats, known);
            Due(once, msg, known) == {} && Handled(once, msg, stats', known) == once
  {
    var once := Handled(rows, msg, stats, known);
    assert forall id <- once :: !IsDue(once[id], msg, known) || !IsOpen(once, msg.Prefix(), id);
    assert Due(once, msg, known) == {};
    NothingDue(once, msg, stats', known);
  }

  lemma NothingDue(rows: Rows, msg: Message, stats: Stats, known: set<string>)
    requires Due(rows, msg, known) == {}
    ensures Handled(rows, msg, stats, known) == rows
  {
    assert Finished(rows, msg, stats, {}) == {};
    assert Doomed(rows, msg.Prefix(), {}) == {};
  }

  /** A category in which a goal was just completed keeps no other goal that is open. */
  lemma CategoryIsCleared(rows: Rows, msg: Message, stats: Stats, known: set<string>, done: string, other: string)
    requires done in Finished(rows, msg, stats, Due(rows, msg, known))
    ensures var after := Handled(rows, msg, stats, known);
            && done in after && after[done].status == Completed
            && (IsOpen(after, msg.Prefix(), other) ==> after[other].category != rows[done].category)
  {
    var due := Due(rows, msg, known);
    var finished := Finished(rows, msg, stats, due);
    assert rows[done].category in Categories(rows, finished);
  }

  /** Nothing else is touched: a goal of another category, or of someone else, or completed before. */
  lemma OthersStay(rows: Rows, msg: Message, stats: Stats, known: set<string>, id: string)
    requires id in rows && id !in Due(rows, msg, known)
    ensures var after := Handled(rows, msg, stats, known);
            var cleared := Categories(rows, Finished(rows, msg, stats, Due(rows, msg, known)));
            && (id in after ==> after[id] == rows[id])
            && (id !in after <==> IsOpen(rows, msg.Prefix(), id) && rows[id].category in cleared)
  {
  }

  // ---------- Which games count ----------

  /** The goal is still there once the message was handled. */
  ghost predicate IsKept(rows: Rows, msg: Message, stats: Stats, known: set<string>, id: string) {
    id in rows && id in Handled(rows, msg, stats, known)
  }

  /** The game brought the goal one step nearer to its target. */
  ghost predicate Counted(rows: Rows, msg: Message, stats: Stats, known: set<string>, id: string)
    requires IsKept(rows, msg, stats, known, id)
  {
    Handled(rows, msg, stats, known)[id].count == rows[id].count + 1
  }

  /** Among the open goals of the player, the role and the champion, a game concerns the accepted ones about a
      known statistic, once; these learn of it, and all others stay as they are. */
  lemma OnlyAcceptedGoalsLearn(rows: Rows, msg: Message, stats: Stats, known: set<string>, id: string)
    requires IsKept(rows, msg, stats, known, id) && msg.Valid() && stats(rows[id].stat).Some?
    ensures var g, h := rows[id], Handled(rows, msg, stats, known)[id];
            if && msg.Prefix() < id && id[|msg.Prefix()|] < '0' && g.role == msg.role && g.championId == msg.championId
               && g.status == Accepted && g.stat in known && g.lastMatchId != msg.matchId
            then h.lastMatchId == msg.matchId && h.lastValue == stats(g.stat).value
            else h == g
  {
    KeyRangeIsPrefix(msg.Prefix(), id);
  }

  /** A goal that was completed before is neither changed nor deleted. */
  lemma CompletedGoalsStay(rows: Rows, msg: Message, stats: Stats, known: set<string>, id: string)
    requires id in rows && (rows[id].status == Completed || rows[id].status == CompletedSeen)
    ensures IsKept(rows, msg, stats, known, id) && Handled(rows, msg, stats, known)[id] == rows[id]
  {
  }

  /** A goal that is deleted makes way for another one of its category, which this very game completed. */
  lemma DeletedForAnother(rows: Rows, msg: Message, stats: Stats, known: set<string>, id: string)
    requires id in rows && !IsKept(rows, msg, stats, known, id)
    ensures exists done: string ::
              && done != id && IsKept(rows, msg, stats, known, done) && rows[done].category == rows[id].category
              && rows[done].status == Accepted && Handled(rows, msg, stats, known)[done].status == Completed
  {
    hide IsBreach, InKeyRange;
    var finished := Finished(rows, msg, stats, Due(rows, msg, known));
    var done :| done in rows && done in finished && rows[done].category == rows[id].category;
    assert IsKept(rows, msg, stats, known, done);
  }

  /** A game counts once or not at all; the goal is completed by the game that makes the count its target, and
      nothing else about it changes. A comparator that is none of the four never counts. */
  lemma CountGrowsOrStays(rows: Rows, msg: Message, stats: Stats, known: set<string>, id: string)
    requires id in Due(rows, msg, known) && IsKept(rows, msg, stats, known, id) && stats(rows[id].stat).Some?
    ensures var g, h := rows[id], Handled(rows, msg, stats, known)[id];
            && (h.count == g.count || Counted(rows, msg, stats, known, id))
            && h.status == (if h.count == g.count + 1 == g.targetCount then Completed else Accepted)
            && h == g.(lastValue := stats(g.stat).value, lastMatchId := msg.matchId, count := h.count,
                    status := h.status)
            && (g.comparator == Other ==> h.count == g.count)
  {
  }

  /** One comparator holds exactly where the other does not. */
  predicate AreOpposite(c: Comparator, d: Comparator) {
    (c == LessThan && d == GreaterThanOrEqual) || (c == LessThanOrEqual && d == GreaterThan)
  }

  /** A game that counts for a goal would not count for the opposite goal, and the other way round. */
  lemma OppositeGoalsShareTheGames(
    rows: Rows, msg: Message, stats: Stats, known: set<string>, id: string, opposite: Comparator)
    requires id in Due(rows, msg, known) && IsKept(rows, msg, stats, known, id)
    requires AreOpposite(rows[id].comparator, opposite)
    requires IsKept(rows[id := rows[id].(comparator := opposite)], msg, stats, known, id)
    ensures Counted(rows, msg, stats, known, id) <==>
            !Counted(rows[id := rows[id].(comparator := opposite)], msg, stats, known, id)
  {
  }

  /** At the very target the comparators that allow equality count, and no others. */
  lemma TheTargetItself(rows: Rows, msg: Message, stats: Stats, known: set<string>, id: string)
    requires id in Due(rows, msg, known) && IsKept(rows, msg, stats, known, id)
    requires stats(rows[id].stat) == Some(rows[id].target)
    ensures Counted(rows, msg, stats, known, id) <==>
            rows[id].comparator == LessThanOrEqual || rows[id].comparator == GreaterThanOrEqual
  {
  }

  /** For a goal to stay low, a game below the target counts, and one that is lower than a game that counts
      counts as well. */
  lemma LowerIsBetter(rows: Rows, msg: Message, stats: Stats, stats': Stats, known: set<string>, id: string)
    requires id in Due(rows, msg, known)
    requires IsKept(rows, msg, stats, known, id) && IsKept(rows, msg, stats', known, id)
    requires rows[id].comparator == LessThan || rows[id].comparator == LessThanOrEqual
    requires stats(rows[id].stat).Some? && stats'(rows[id].stat).Some?
    requires stats'(rows[id].stat).value <= stats(rows[id].stat).value
    ensures stats(rows[id].stat).value < rows[id].target ==> Counted(rows, msg, stats, known, id)
    ensures Counted(rows, msg, stats, known, id) ==> Counted(rows, msg, stats', known, id)
  {
  }

  /** For a goal to get high, it is the other way round. */
  lemma HigherIsBetter(rows: Rows, msg: Message, stats: Stats, stats': Stats, known: set<string>, id: string)
    requires id in Due(rows, msg, known)
    requires IsKept(rows, msg, stats, known, id) && IsKept(rows, msg, stats', known, id)
    requires rows[id].comparator == GreaterThan || rows[id].comparator == GreaterThanOrEqual
    requires stats(rows[id].stat).Some? && stats'(rows[id].stat).Some?
    requires stats(rows[id].stat).value <= stats'(rows[id].stat).value
    ensures rows[id].target < stats(rows[id].stat).value ==> Counted(rows, msg, stats, known, id)
    ensures Counted(rows, msg, stats, known, id) ==> Counted(rows, msg, stats', known, id)
  {
  }

  // ---------- Targets ----------

  /** Accepted goals that can still be completed. */
  predicate OnTrack(rows: Rows) {
    forall id <- rows :: rows[id].status == Accepted ==> rows[id].count < rows[id].targetCount
  }

  /** No message overshoots a target, so every accepted goal can still be completed. */
  lemma TargetsAreNotOvershot(rows: Rows, msg: Message, stats: Stats, known: set<string>)
    requires OnTrack(rows)
    ensures OnTrack(Handled(rows, msg, stats, known))
  {
  }

  // ---------- Trying again after a failure ----------

  /** What a failed attempt may leave behind: some of the updates, and once all of them are done, some of
      the deletions. */
  ghost predicate IsPartial(before: Rows, after: Rows, msg: Message, stats: Stats, known: set<string>) {
    var due := Due(before, msg, known);
    || (exists ids :: ids <= due && after == Written(before, msg, stats, ids))
    || (exists ids :: ids <= DoomedBy(before, msg, stats, known) && after == Written(before, msg, stats, due) - ids)
  }

  /** What an uninterrupted attempt deletes. */
  ghost function DoomedBy(rows: Rows, msg: Message, stats: Stats, known: set<string>): set<string> {
    Doomed(rows, msg.Prefix(), Finished(rows, msg, stats, Due(rows, msg, known)))
  }

  /** A goal of the category that is still to be updated, and then complete. */
  ghost predicate StillCompletes(
    rows: Rows, left: set<string>, msg: Message, stats: Stats, category: string)
  {
    exists id <- left :: id in rows && After(rows[id], msg, stats).status == Completed && rows[id].category == category
  }

  /** After some of the updates, the rest is due, and what is still to be cleared is decided by the rest. */
  lemma {:induction false} DueAfterUpdates(
    rows: Rows, msg: Message, stats: Stats, known: set<string>, written: set<string>)
    requires msg.Valid() && written <= Due(rows, msg, known)
    ensures var partial := Written(rows, msg, stats, written);
            var rest := Due(rows, msg, known) - written;
            && Due(partial, msg, known) == rest
            && Finished(partial, msg, stats, rest) == Finished(rows, msg, stats, rest)
  {
    hide InKeyRange, IsBreach;
    var partial := Written(rows, msg, stats, written);
    var rest := Due(rows, msg, known) - written;
    assert forall id <- rest :: id in partial && partial[id] == rows[id];
    assert Due(partial, msg, known) == rest;
  }

  lemma {:induction false} RetryAfterUpdates(
    rows: Rows, msg: Message, stats: Stats, known: set<string>, written: set<string>)
    requires msg.Valid() && written <= Due(rows, msg, known)
    ensures var partial := Written(rows, msg, stats, written);
            var rest := Due(rows, msg, known) - written;
            var gone :=
              set id <- DoomedBy(rows, msg, stats, known) | StillCompletes(rows, rest, msg, stats, rows[id].category);
            && DoomedBy(partial, msg, stats, known) == gone
            && Handled(partial, msg, stats, known) == Written(rows, msg, stats, Due(rows, msg, known)) - gone
  {
    hide InKeyRange, Updated, Due;
    var partial := Written(rows, msg, stats, written);
    var due := Due(rows, msg, known);
    var rest := due - written;
    var gone := set id <- DoomedBy(rows, msg, stats, known) | StillCompletes(rows, rest, msg, stats, rows[id].category);
    DueAfterUpdates(rows, msg, stats, known, written);
    DoomedAfterUpdates(rows, msg, stats, known, written);
    DueAreRows(rows, msg, known);
    assert Written(partial, msg, stats, rest) == Written(rows, msg, stats, due);
  }

  lemma DueAreRows(rows: Rows, msg: Message, known: set<string>)
    ensures Due(rows, msg, known) <= rows.Keys
    ensures forall id <- Due(rows, msg, known) :: IsOpen(rows, msg.Prefix(), id)
  {
  }

  lemma {:induction false} DoomedAfterUpdates(
    rows: Rows, msg: Message, stats: Stats, known: set<string>, written: set<string>)
    requires msg.Valid() && written <= Due(rows, msg, known)
    ensures var partial := Written(rows, msg, stats, written);
            var rest := Due(rows, msg, known) - written;
            DoomedBy(partial, msg, stats, known) ==
            set id <- DoomedBy(rows, msg, stats, known) | StillCompletes(rows, rest, msg, stats, rows[id].category)
  {
    hide InKeyRange, Due;
    var partial := Written(rows, msg, stats, written);
    var rest := Due(rows, msg, known) - written;
    DueAfterUpdates(rows, msg, stats, known, written);
    DueAreRows(rows, msg, known);
    var finished := Finished(rows, msg, stats, rest);
    forall id | id in rows
      ensures rows[id].category in Categories(partial, finished) <==>
              StillCompletes(rows, rest, msg, stats, rows[id].category)
    {
      CategoriesOfRest(rows, msg, stats, written, rest, rows[id].category);
    }
    forall id
      ensures id in DoomedBy(partial, msg, stats, known) <==>
              id in DoomedBy(rows, msg, stats, known) && StillCompletes(rows, rest, msg, stats, rows[id].category)
    {
      OpenAfterUpdates(rows, msg, stats, written, id);
      if id in rows && StillCompletes(rows, rest, msg, stats, rows[id].category) {
        var r :| r in rest && r in rows && After(rows[r], msg, stats).status == Completed
                 && rows[r].category == rows[id].category;
        assert r in Finished(rows, msg, stats, Due(rows, msg, known));
      }
    }
  }

  lemma CategoriesOfRest(
    rows: Rows, msg: Message, stats: Stats, written: set<string>, rest: set<string>, category: string)
    requires rest !! written
    ensures category in Categories(Written(rows, msg, stats, written), Finished(rows, msg, stats, rest)) <==>
            StillCompletes(rows, rest, msg, stats, category)
  {
    hide Updated;
    var partial, finished := Written(rows, msg, stats, written), Finished(rows, msg, stats, rest);
    if category in Categories(partial, finished) {
      var id :| id in partial && id in finished && partial[id].category == category;
      assert partial[id] == rows[id];
    }
    if StillCompletes(rows, rest, msg, stats, category) {
      var id :| id in rest && id in rows && After(rows[id], msg, stats).status == Completed
                && rows[id].category == category;
      assert id in finished && partial[id] == rows[id];
    }
  }

  lemma OpenAfterUpdates(rows: Rows, msg: Message, stats: Stats, written: set<string>, id: string)
    requires forall k <- written :: IsOpen(rows, msg.Prefix(), k)
    ensures IsOpen(Written(rows, msg, stats, written), msg.Prefix(), id) <==>
            IsOpen(rows, msg.Prefix(), id) && !(id in written && After(rows[id], msg, stats).status == Completed)
  {
  }

  /** After all updates and some deletions, another attempt does nothing more. */
  lemma {:induction false} RetryAfterDeletions(
    rows: Rows, msg: Message, stats: Stats, known: set<string>, deleted: set<string>)
    requires msg.Valid()
    ensures var partial := Written(rows, msg, stats, Due(rows, msg, known)) - deleted;
            Due(partial, msg, known) == {} && Handled(partial, msg, stats, known) == partial
  {
    hide InKeyRange, IsBreach;
    var partial := Written(rows, msg, stats, Due(rows, msg, known)) - deleted;
    assert forall id <- partial :: !(IsOpen(partial, msg.Prefix(), id) && IsDue(partial[id], msg, known));
    assert Due(partial, msg, known) == {};
    NothingDue(partial, msg, stats, known);
  }

  /** Exactly when another attempt ends as one that was not interrupted: if everything that was to be
      deleted either is gone already or shares its category with a goal that the second attempt completes. */
  lemma {:induction false} RetryIsComplete(before: Rows, after: Rows, msg: Message, stats: Stats, known: set<string>)
    requires msg.Valid() && IsPartial(before, after, msg, stats, known)
    ensures Handled(after, msg, stats, known) == Handled(before, msg, stats, known) <==>
            forall id <- DoomedBy(before, msg, stats, known) ::
              id !in after || StillCompletes(before, Due(after, msg, known), msg, stats, before[id].category)
  {
    hide Due, Doomed, IsOpen, Updated;
    var due, doomed := Due(before, msg, known), DoomedBy(before, msg, stats, known);
    var full := Written(before, msg, stats, due);
    DoomedAreRows(before, msg.Prefix(), Finished(before, msg, stats, due));
    if ids :| ids <= due && after == Written(before, msg, stats, ids) {
      RetryAfterUpdates(before, msg, stats, known, ids);
      DueAfterUpdates(before, msg, stats, known, ids);
      SameRestSameGone(
        full, doomed, set id <- doomed | StillCompletes(before, due - ids, msg, stats, before[id].category));
    } else {
      var ids :| ids <= doomed && after == full - ids;
      RetryAfterDeletions(before, msg, stats, known, ids);
      SameRestSameGone(full, doomed, ids);
    }
  }

  lemma DoomedAreRows(rows: Rows, prefix: string, finished: set<string>)
    ensures Doomed(rows, prefix, finished) <= rows.Keys
  {
  }

  lemma SameRestSameGone(rows: Rows, all: set<string>, gone: set<string>)
    requires gone <= all <= rows.Keys
    ensures rows - gone == rows - all <==> forall id <- all :: id in gone
  {
    if rows - gone == rows - all {
      forall id | id in all
        ensures id in gone
      {
        assert id !in (rows - all).Keys;
      }
    } else {
      assert gone != all;
    }
  }

  /** A player with two goals of one category, of which the game completes the first. */
  function FirstGoal(status: Status): Goal {
    Goal(1, "NA1", "MID", 0, "a", 7, status, 5.0, GreaterThan, 0, 1, "MECHANICS", 0.0, 0)
  }

  function SecondGoal(): Goal {
    FirstGoal(New).(stat := "b")
  }

  /** An attempt that fails before it deletes the second goal leaves it there for good: another attempt
      succeeds and changes nothing. */
  lemma {:induction false} FailedDeletionIsForgotten()
    ensures var msg, stats := Message(9, 1, "NA1", "MID", 0), (stat: string) => Some(6.0);
            var first, second := FirstGoal(Accepted), SecondGoal();
            var rows := map[Id(first) := first, Id(second) := second];
            exists after: Rows ::
              && IsPartial(rows, after, msg, stats, {"a"})
              && Handled(after, msg, stats, {"a"}) == after && Id(second) in after
              && Id(second) !in Handled(rows, msg, stats, {"a"})
  {
    hide Print, PrintNat;
    var msg, stats := Message(9, 1, "NA1", "MID", 0), (stat: string) => Some(6.0);
    var first, second := FirstGoal(Accepted), SecondGoal();
    var rows := map[Id(first) := first, Id(second) := second];
    OwnGoalIsFound(msg, first);
    OwnGoalIsFound(msg, second);
    IdsDiffer();
    var due := Due(rows, msg, {"a"});
    assert due == {Id(first)};
    assert After(first, msg, stats).status == Completed;
    assert Finished(rows, msg, stats, due) == due;
    assert rows[Id(first)].category in Categories(rows, due);
    assert DoomedBy(rows, msg, stats, {"a"}) == {Id(second)};
    var after := Written(rows, msg, stats, due);
    RetryAfterDeletions(rows, msg, stats, {"a"}, {});
    assert after - {} == after;
  }

  lemma OwnGoalIsFound(msg: Message, g: Goal)
    requires g.summonerId == msg.summonerId && g.platform == msg.platform
    requires g.role == msg.role && g.championId == msg.championId
    ensures InKeyRange(msg.Prefix(), Id(g))
  {
    hide Print, PrintNat;
    KeyRangeIsPrefix(msg.Prefix(), Id(g));
  }

  lemma IdsDiffer()
    ensures Id(FirstGoal(Accepted)) != Id(SecondGoal())
  {
    hide Print, PrintNat;
    var first, second := FirstGoal(Accepted), SecondGoal();
    var prefix := KeyPrefix(1, "NA1", "MID", 0);
    assert Id(first)[|prefix| + 1] == 'a' && Id(second)[|prefix| + 1] == 'b';
  }

  // ---------- Handling a message ----------

  ghost function Ids(goals: seq<Goal>): set<string> {
    set g <- goals :: Id(g)
  }

  ghost function ToClear(goals: seq<Goal>, categories: set<string>, completed: set<string>): set<string> {
    set g <- goals | g.category in categories && Id(g) !in completed :: Id(g)
  }

  lemma NothingToClear(goals: seq<Goal>, k: string, completed: set<string>)
    ensures ToClear(goals[..0], {k}, completed) == {} && ToClear(goals, {}, completed) == {}
  {
  }

  lemma ToClearGrows(goals: seq<Goal>, i: nat, k: string, completed: set<string>)
    requires i < |goals|
    ensures
      var g := goals[i];
      var more := if g.category == k && Id(g) !in completed then {Id(g)} else {};
      ToClear(goals[..i + 1], {k}, completed) == ToClear(goals[..i], {k}, completed) + more
    ensures ToClear(goals[..i + 1], {k}, completed) <= ToClear(goals, {k}, completed)
  {
    hide Id;
    assert goals[..i + 1] == goals[..i] + [goals[i]];
  }

  lemma ToClearAdds(goals: seq<Goal>, categories: set<string>, k: string, completed: set<string>)
    ensures ToClear(goals, categories + {k}, completed) ==
            ToClear(goals, categories, completed) + ToClear(goals, {k}, completed)
  {
    hide Id;
  }

  lemma ToClearIsMonotone(goals: seq<Goal>, some: set<string>, all: set<string>, completed: set<string>)
    requires some <= all
    ensures ToClear(goals, some, completed) <= ToClear(goals, all, completed)
  {
    hide Id;
  }

  lemma ListingDue(rows: Rows, msg: Message, known: set<string>, all: seq<Goal>, due: seq<Goal>)
    requires IsListing(rows, msg.Prefix(), all)
    requires forall g :: g in due <==> g in all && IsDue(g, msg, known)
    ensures Ids(due) == Due(rows, msg, known)
  {
    hide Id, IsDue, InKeyRange;
    forall id | id in Due(rows, msg, known)
      ensures id in Ids(due)
    {
      assert rows[id] in due && Id(rows[id]) == id;
    }
  }

  lemma ListingDoomed(rows: Rows, prefix: string, all: seq<Goal>, finished: set<string>)
    requires IsListing(rows, prefix, all)
    ensures ToClear(all, Categories(rows, finished), finished) == Doomed(rows, prefix, finished)
  {
    hide Id, InKeyRange, Categories;
    forall id | id in Doomed(rows, prefix, finished)
      ensures id in ToClear(all, Categories(rows, finished), finished)
    {
      assert rows[id] in all && Id(rows[id]) == id;
    }
  }

  lemma PartialIsConsistent(before: Rows, after: Rows, msg: Message, stats: Stats, known: set<string>)
    requires Consistent(before) && IsPartial(before, after, msg, stats, known)
    ensures Consistent(after)
  {
    hide Id, Updated, Due, Finished, Doomed;
    forall id | id in after
      ensures Id(after[id]) == id
    {
      UpdateKeepsId(before[id], msg, ValueOf(stats, before[id].stat));
      assert after[id] == before[id] || after[id] == After(before[id], msg, stats);
    }
  }

  /** Nothing done yet is a part of what is to be done. */
  lemma NothingIsPartial(rows: Rows, msg: Message, stats: Stats, known: set<string>)
    ensures IsPartial(rows, rows, msg, stats, known)
  {
    assert Written(rows, msg, stats, {}) == rows;
  }

  lemma IdsGrow(goals: seq<Goal>, i: nat)
    requires i < |goals|
    ensures Ids(goals[..i + 1]) == Ids(goals[..i]) + {Id(goals[i])}
  {
    assert goals[..i + 1] == goals[..i] + [goals[i]];
  }

  lemma UpdateKeepsId(g: Goal, msg: Message, value: real)
    ensures Id(Updated(g, msg, value)) == Id(g) && Updated(g, msg, value).category == g.category
  {
  }

  lemma WrittenGrows(rows: Rows, msg: Message, stats: Stats, ids: set<string>, id: string)
    requires id in rows
    ensures Written(rows, msg, stats, ids + {id}) == Written(rows, msg, stats, ids)[id := After(rows[id], msg, stats)]
  {
  }

  lemma FinishedGrows(rows: Rows, msg: Message, stats: Stats, ids: set<string>, id: string)
    requires id in rows
    ensures var done := Finished(rows, msg, stats, ids);
            var more := if After(rows[id], msg, stats).status == Completed then {id} else {};
            && Finished(rows, msg, stats, ids + {id}) == done + more
            && Categories(rows, done + {id}) == Categories(rows, done) + {rows[id].category}
  {
  }

  /** The store of goals, and how many of the accesses to it have failed. */
  class GoalsUpdater {
    var rows: Rows
    const known: set<string>
    ghost var faults: nat

    constructor (rows: Rows, known: set<string>)
      ensures this.rows == rows && this.known == known && faults == 0
    {
      this.rows, this.known, faults := rows, known, 0;
    }

    /** A write that reports an error may have happened. */
    method Write(g: Goal) returns (ok: bool)
      modifies this
      ensures rows == old(rows) || rows == old(rows)[Id(g) := g]
      ensures ok ==> rows == old(rows)[Id(g) := g]
      ensures faults == old(faults) + if ok then 0 else 1
    {
      ok := *;
      var written := *;
      if !ok {
        faults := faults + 1;
      }
      if ok || written {
        rows := rows[Id(g) := g];
      }
    }

    method Delete(id: string) returns (ok: bool)
      modifies this
      ensures rows == old(rows) || rows == old(rows) - {id}
      ensures ok ==> rows == old(rows) - {id}
      ensures faults == old(faults) + if ok then 0 else 1
    {
      ok := *;
      var deleted := *;
      if !ok {
        faults := faults + 1;
      }
      if ok || deleted {
        rows := rows - {id};
      }
    }

    method HasGoals(msg: Message) returns (r: Option<bool>)
      modifies this`faults
      ensures faults == old(faults) + if r.Some? then 0 else 1
      ensures r.Some? ==> (r.value <==> exists id <- rows :: InKeyRange(msg.Prefix(), id))
    {
      var readable := *;
      if !readable {
        faults := faults + 1;
        return None;
      }
      return Some(exists id <- rows :: InKeyRange(msg.Prefix(), id));
    }

    /** The open goals in the key range, read one after the other. */
    method GetAllGoals(msg: Message) returns (r: Option<seq<Goal>>)
      requires Consistent(rows)
      modifies this`faults
      ensures faults == old(faults) + if r.Some? then 0 else 1
      ensures r.Some? ==> IsListing(rows, msg.Prefix(), r.value)
    {
      hide InKeyRange, Id;
      var goals: seq<Goal> := [];
      var left := set id <- rows | InKeyRange(msg.Prefix(), id);
      while left != {}
        invariant left <= (set id <- rows | InKeyRange(msg.Prefix(), id))
        invariant faults == old(faults)
        invariant forall g <- goals :: IsOpen(rows, msg.Prefix(), Id(g)) && rows[Id(g)] == g && Id(g) !in left
        invariant forall id <- rows :: IsOpen(rows, msg.Prefix(), id) && id !in left ==> rows[id] in goals
        invariant Distinct(goals)
        decreases |left|
      {
        var readable := *;
        if !readable {
          faults := faults + 1;
          return None;
        }
        var id := MapOrder.Next(left);
        left := left - {id};
        var row := rows[id];
        if row.status == Completed || row.status == CompletedSeen {
          continue;
        }
        goals := goals + [row];
      }
      return Some(goals);
    }

    method FilterDue(goals: seq<Goal>, msg: Message) returns (r: seq<Goal>)
      requires Distinct(goals)
      ensures Distinct(r) && forall g :: g in r <==> g in goals && IsDue(g, msg, known)
    {
      r := [];
      for i := 0 to |goals|
        invariant Distinct(r)
        invariant forall g :: g in r <==> g in goals[..i] && IsDue(g, msg, known)
      {
        if IsDue(goals[i], msg, known) {
          r := r + [goals[i]];
        }
      }
      assert goals[..|goals|] == goals;
    }

    /** Updates goal after goal, until one fails. */
    method UpdateGoals(goals: seq<Goal>, msg: Message, stats: Stats)
      returns (ok: bool, categories: set<string>, completed: set<string>)
      requires Consistent(rows) && Distinct(goals)
      requires forall g <- goals :: Id(g) in rows && rows[Id(g)] == g
      modifies this
      ensures ok ==> rows == Written(old(rows), msg, stats, Ids(goals))
      ensures ok ==> completed == Finished(old(rows), msg, stats, Ids(goals))
      ensures ok ==> categories == Categories(old(rows), completed)
      ensures !ok ==> exists ids :: ids <= Ids(goals) && rows == Written(old(rows), msg, stats, ids)
      ensures ok ==> faults == old(faults)
      ensures !ok ==> faults > old(faults) || exists g <- goals :: stats(g.stat).None?
    {
      hide Updated, Id;
      categories, completed := {}, {};
      assert Ids(goals[..0]) == {};
      assert rows == Written(rows, msg, stats, {});
      for i := 0 to |goals|
        invariant rows == Written(old(rows), msg, stats, Ids(goals[..i])) && faults == old(faults)
        invariant completed == Finished(old(rows), msg, stats, Ids(goals[..i]))
        invariant categories == Categories(old(rows), completed)
      {
        var g := goals[i];
        assert g in goals;
        IdsGrow(goals, i);
        var value := stats(g.stat);
        if value.None? {
          return false, categories, completed;
        }
        var h := Updated(g, msg, value.value);
        UpdateKeepsId(g, msg, value.value);
        WrittenGrows(old(rows), msg, stats, Ids(goals[..i]), Id(g));
        FinishedGrows(old(rows), msg, stats, Ids(goals[..i]), Id(g));
        if h.status == Completed {
          categories := categories + {h.category};
          completed := completed + {Id(h)};
        }
        var written := Write(h);
        if !written {
          return false, categories, completed;
        }
      }
      assert goals[..|goals|] == goals;
      ok := true;
    }

    /** Deletes the open goals of a category, except for those just completed. */
    method ClearCategory(goals: seq<Goal>, k: string, completed: set<string>) returns (ok: bool)
      modifies this
      ensures ok ==> rows == old(rows) - ToClear(goals, {k}, completed)
      ensures !ok ==> exists ids :: ids <= ToClear(goals, {k}, completed) && rows == old(rows) - ids
      ensures ok <==> faults == old(faults)
      ensures old(faults) <= faults
    {
      hide ToClear, Id;
      ghost var gone: set<string> := {};
      NothingToClear(goals, k, completed);
      assert rows == rows - gone;
      for i := 0 to |goals|
        invariant rows == old(rows) - gone && gone == ToClear(goals[..i], {k}, completed) && faults == old(faults)
      {
        ToClearGrows(goals, i, k, completed);
        if goals[i].category == k && Id(goals[i]) !in completed {
          assert old(rows) - gone - {Id(goals[i])} == old(rows) - (gone + {Id(goals[i])});
          ok := Delete(Id(goals[i]));
          if !ok {
            return false;
          }
          gone := gone + {Id(goals[i])};
        }
      }
      assert goals[..|goals|] == goals;
      ok := true;
    }

    method ClearCategories(goals: seq<Goal>, categories: set<string>, completed: set<string>) returns (ok: bool)
      modifies this
      ensures ok ==> rows == old(rows) - ToClear(goals, categories, completed)
      ensures !ok ==> exists ids :: ids <= ToClear(goals, categories, completed) && rows == old(rows) - ids
      ensures ok <==> faults == old(faults)
      ensures old(faults) <= faults
    {
      hide ToClear;
      ghost var gone := {};
      var left := categories;
      assert rows == rows - gone;
      NothingToClear(goals, "", completed);
      assert categories - left == {};
      while left != {}
        invariant left <= categories
        invariant rows == old(rows) - gone && gone == ToClear(goals, categories - left, completed)
        invariant faults == old(faults)
        decreases |left|
      {
        var k := MapOrder.Next(left);
        ghost var before := rows;
        assert categories - (left - {k}) == (categories - left) + {k};
        ToClearAdds(goals, categories - left, k, completed);
        ToClearIsMonotone(goals, categories - left + {k}, categories, completed);
        ok := ClearCategory(goals, k, completed);
        left := left - {k};
        if !ok {
          ghost var ids :| ids <= ToClear(goals, {k}, completed) && rows == before - ids;
          assert rows == old(rows) - (gone + ids);
          return false;
        }
        gone := gone + ToClear(goals, {k}, completed);
      }
      assert categories - left == categories;
      ok := true;
    }

    /** Updates the goals of a player after a match. `stats` is what could be read about the match. */
    method Handle(msg: Message, stats: Option<Stats>) returns (ok: bool)
      requires Consistent(rows)
      modifies this
      ensures Consistent(rows)
      ensures !msg.Valid() ==> !ok && rows == old(rows)
      ensures ok ==> msg.matchId != 0 && msg.summonerId != 0 && msg.platform != "" && msg.role != ""
      ensures stats.None? ==> rows == old(rows) && (ok ==> Due(rows, msg, known) == {})
      ensures ok && stats.Some? ==> rows == Handled(old(rows), msg, stats.value, known)
      ensures !ok && stats.Some? ==> IsPartial(old(rows), rows, msg, stats.value, known)
      ensures ok ==> faults == old(faults)
      ensures !ok && msg.matchId != 0 && msg.summonerId != 0 && msg.platform != "" && msg.role != "" ==>
                || faults > old(faults) || stats.None?
                || exists id <- Due(old(rows), msg, known) :: stats.value(old(rows)[id].stat).None?
      ensures !ok && msg.Valid() && stats.None? ==> faults > old(faults) || Due(old(rows), msg, known) != {}
      ensures !ok && msg.Valid() && stats.Some? ==>
                faults > old(faults) || exists id <- Due(old(rows), msg, known) :: stats.value(old(rows)[id].stat).None?
    {
      hide Written, Finished, Doomed, Due, Ids, ToClear, Categories, Consistent, IsListing;
      ghost var before := rows;
      ghost var due := Due(rows, msg, known);
      if stats.Some? {
        NothingIsPartial(rows, msg, stats.value, known);
      }
      if !msg.Valid() {
        return false;
      }
      var found := HasGoals(msg);
      if found.None? {
        return false;
      } else if !found.value {
        NothingFound(rows, msg, stats, known);
        return true;
      }
      var allGoals := GetAllGoals(msg);
      if allGoals.None? {
        return false;
      }
      ListingIsConsistent(rows, msg.Prefix(), allGoals.value);
      var goalsToUpdate := FilterDue(allGoals.value, msg);
      ListingDue(rows, msg, known, allGoals.value, goalsToUpdate);
      if |goalsToUpdate| == 0 {
        NobodyIsDue(rows, msg, stats, known, goalsToUpdate);
        return true;
      }
      if stats.None? {
        SomebodyIsDue(goalsToUpdate);
        return false;
      }
      var categories, completed;
      ok, categories, completed := UpdateGoals(goalsToUpdate, msg, stats.value);
      if !ok {
        PartialIsConsistent(before, rows, msg, stats.value, known);
        DueByGoal(before, goalsToUpdate, due, stats.value);
        return false;
      }
      ListingDoomed(before, msg.Prefix(), allGoals.value, completed);
      ok := ClearCategories(allGoals.value, categories, completed);
      if ok {
        HandledIsConsistent(before, msg, stats.value, known);
      } else {
        PartialIsConsistent(before, rows, msg, stats.value, known);
      }
    }
  }

  lemma DueByGoal(rows: Rows, goals: seq<Goal>, due: set<string>, stats: Stats)
    requires Ids(goals) == due && forall g <- goals :: Id(g) in rows && rows[Id(g)] == g
    ensures (exists g <- goals :: stats(g.stat).None?) ==> exists id <- due :: id in rows && stats(rows[id].stat).None?
  {
    if g :| g in goals && stats(g.stat).None? {
      assert Id(g) in due && stats(rows[Id(g)].stat).None?;
    }
  }

  lemma NothingFound(rows: Rows, msg: Message, stats: Option<Stats>, known: set<string>)
    requires forall id <- rows :: !InKeyRange(msg.Prefix(), id)
    ensures Due(rows, msg, known) == {}
    ensures stats.Some? ==> Handled(rows, msg, stats.value, known) == rows
  {
    if stats.Some? {
      NothingDue(rows, msg, stats.value, known);
    }
  }

  lemma NobodyIsDue(rows: Rows, msg: Message, stats: Option<Stats>, known: set<string>, due: seq<Goal>)
    requires due == [] && Ids(due) == Due(rows, msg, known)
    ensures Due(rows, msg, known) == {}
    ensures stats.Some? ==> Handled(rows, msg, stats.value, known) == rows
  {
    if stats.Some? {
      NothingDue(rows, msg, stats.value, known);
    }
  }

  lemma SomebodyIsDue(due: seq<Goal>)
    requires due != []
    ensures Ids(due) != {}
  {
    assert Id(due[0]) in Ids(due);
  }

  lemma ListingIsConsistent(rows: Rows, prefix: string, all: seq<Goal>)
    requires IsListing(rows, prefix, all)
    ensures Distinct(all) && forall g <- all :: Id(g) in rows && rows[Id(g)] == g
  {
  }

  ghost predicate IsListing(rows: Rows, prefix: string, goals: seq<Goal>) {
    && (forall g <- goals :: IsOpen(rows, prefix, Id(g)) && rows[Id(g)] == g)
    && (forall id <- rows :: IsOpen(rows, prefix, id) ==> rows[id] in goals && Id(rows[id]) == id)
    && Distinct(goals)
  }
}
