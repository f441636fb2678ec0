/** Paying for the analysis of a match (loldispatcher-master/dispatch_handler.go): a receipt is stored
    before the user is charged, so no match is charged twice however often its message is delivered. */
module Billing {
  import opened Basics
  import opened Decimal
  import opened LolUsers
  import opened Wrappers

  // ---------- Receipt keys ----------

  function ReceiptKey(matchId: int, platform: string, summonerId: int): string {
    Print(matchId) + "-" + platform + "-" + Print(summonerId)
  }

  /** When two purchases share a receipt: they are the same, or they differ in the sign of the summoner id
      and one platform name ends in a hyphen. */
  predicate SameReceipt(m: int, p: string, s: int, m': int, p': string, s': int) {
    && m == m'
    && ((p == p' && s == s') || (s == -s' && (if s < 0 then p' == p + "-" else 0 < s && p == p' + "-")))
  }

  /** Exactly when two purchases are taken for the same one. */
  lemma ReceiptsClash(m: int, p: string, s: int, m': int, p': string, s': int)
    ensures ReceiptKey(m, p, s) == ReceiptKey(m', p', s') <==> SameReceipt(m, p, s, m', p', s')
  {
    var rest, rest' := p + "-" + Print(s), p' + "-" + Print(s');
    assert ReceiptKey(m, p, s) == Print(m) + "-" + rest;
    assert ReceiptKey(m', p', s') == Print(m') + "-" + rest';
    if Print(m) + "-" + rest == Print(m') + "-" + rest' {
      FieldIsDetermined(m, rest, m', rest');
    }
    TailsClash(p, s, p', s');
  }

  lemma TailsClash(p: string, s: int, p': string, s': int)
    ensures p + "-" + Print(s) == p' + "-" + Print(s') <==> SameReceipt(0, p, s, 0, p', s')
  {
    hide Print, PrintNat;
    var t, t' := PrintNat(Abs(s)), PrintNat(Abs(s'));
    PrintIsSigned(s);
    PrintIsSigned(s');
    HyphensMove(p, Sign(s), t);
    HyphensMove(p', Sign(s'), t');
    if p + "-" + Print(s) == p' + "-" + Print(s') {
      SplitAtLast(p + Sign(s), t, p' + Sign(s'), t');
      PrintNatIsInjective(Abs(s), Abs(s'));
      SignsDiffer(p, s, p', s');
    }
  }

  lemma HyphensMove(p: string, sign: string, t: string)
    requires sign == "" || sign == "-"
    ensures p + "-" + (sign + t) == (p + sign) + "-" + t
  {
  }

  lemma SignsDiffer(p: string, s: int, p': string, s': int)
    requires p + Sign(s) == p' + Sign(s') && Abs(s) == Abs(s')
    ensures SameReceipt(0, p, s, 0, p', s')
  {
    assert p + "" == p && p' + "" == p';
    var text := p + Sign(s);
    assert p == text[..|p|] && p' == text[..|p'|];
  }

  /** Summoner ids are not negative, and then a receipt tells exactly what was bought. */
  lemma ReceiptsAreExact(m: int, p: string, s: nat, m': int, p': string, s': nat)
    requires ReceiptKey(m, p, s) == ReceiptKey(m', p', s')
    ensures m == m' && p == p' && s == s'
  {
    ReceiptsClash(m, p, s, m', p', s');
  }

  // ---------- Unique numbers ----------

  /** The distinct numbers in the order of their first occurrences. */
  ghost predicate IsUniqueOf(r: seq<int>, s: seq<int>) {
    && Distinct(r)
    && (forall x :: x in r <==> x in s)
    && forall i, j :: 0 <= i < j < |r| ==> FirstAt(s, r[i]) < FirstAt(s, r[j])
  }

  ghost function FirstAt(s: seq<int>, x: int): nat {
    if s == [] || s[0] == x then 0 else 1 + FirstAt(s[1..], x)
  }

  lemma {:induction false} FirstAtGrown(s: seq<int>, y: int, x: int)
    ensures x in s ==> FirstAt(s + [y], x) == FirstAt(s, x) < |s|
    ensures x !in s ==> FirstAt(s, x) == |s| && FirstAt(s + [y], x) == if x == y then |s| else |s| + 1
  {
    if s == [] {
      assert [y][1..] == [];
    } else {
      FirstAtGrown(s[1..], y, x);
      assert (s + [y])[1..] == s[1..] + [y];
    }
  }

  method UniqueInts(ints: seq<int>) returns (r: seq<int>)
    ensures IsUniqueOf(r, ints)
  {
    hide IsUniqueOf;
    var seen: map<int, bool> := map[];
    r := [];
    NoneIsUnique();
    assert ints[..0] == [];
    for k := 0 to |ints|
      invariant IsUniqueOf(r, ints[..k])
      invariant forall x :: x in seen <==> x in r
    {
      var i := ints[k];
      UniqueGrows(r, ints[..k], i);
      assert ints[..k + 1] == ints[..k] + [i];
      if i in seen {
        continue;
      }
      seen := seen[i := true];
      r := r + [i];
    }
    assert ints[..|ints|] == ints;
  }

  lemma NoneIsUnique()
    ensures IsUniqueOf([], [])
  {
  }

  lemma UniqueGrows(r: seq<int>, s: seq<int>, y: int)
    requires IsUniqueOf(r, s)
    ensures IsUniqueOf(if y in r then r else r + [y], s + [y])
  {
    forall x
      ensures x in s ==> FirstAt(s + [y], x) == FirstAt(s, x) < |s|
      ensures x == y && x !in s ==> FirstAt(s + [y], x) == |s|
    {
      FirstAtGrown(s, y, x);
    }
  }

  // ---------- Charging ----------

  /** One attempt to sell the analysis of a match to a user: whether it stored the receipt and was told so,
      whether something outside failed on the way, and which row has paid, if any. `rows` is what was stored
      of the users by then. */
  datatype Attempt = Attempt(
    matchId: int, platform: string, summonerId: int, userId: string,
    stored: bool, told: bool, failed: bool, paidBy: Option<string>, rows: Rows)

  function KeyOf(a: Attempt): string {
    ReceiptKey(a.matchId, a.platform, a.summonerId)
  }

  /** Points are asked for only when the receipt was stored and the handler knows. They are taken from the
      one row of the user, unless something fails or there is no such row that can bear it. */
  ghost predicate AttemptOk(a: Attempt, cost: int) {
    && (a.told ==> a.stored)
    && (a.stored && !a.told ==> a.failed)
    && (a.paidBy.Some? ==>
          a.told && Owners(a.rows, a.userId) == {a.paidBy.value} && CanBeCharged(a.rows, a.userId, 0 - cost))
    && (a.told && a.paidBy.None? ==> a.failed || !CanBeCharged(a.rows, a.userId, 0 - cost))
  }

  /** Unless something outside fails, whoever got the receipt stored has paid exactly if the row of the user
      could bear it at that moment. */
  ghost predicate PaidIfAble(a: Attempt, cost: int) {
    a.stored && !a.failed ==> (a.paidBy.Some? <==> CanBeCharged(a.rows, a.userId, 0 - cost))
  }

  /** The receipts are those that some attempt stored, and no two attempts stored the same one. */
  ghost predicate LogOk(log: seq<Attempt>, receipts: set<string>, cost: int) {
    && (forall a <- log :: AttemptOk(a, cost) && (a.stored ==> KeyOf(a) in receipts))
    && (forall key <- receipts :: exists a <- log :: a.stored && KeyOf(a) == key)
    && forall i, j :: 0 <= i < j < |log| && log[i].stored && log[j].stored ==> KeyOf(log[i]) != KeyOf(log[j])
  }

  ghost predicate IsPaid(log: seq<Attempt>, key: string) {
    exists a <- log :: KeyOf(a) == key && a.paidBy.Some?
  }

  /** Attempt `i` is the one that stored the receipt. */
  ghost predicate StoredBy(log: seq<Attempt>, key: string, i: nat) {
    i < |log| && log[i].stored && KeyOf(log[i]) == key
  }

  /** Exactly when a purchase with a receipt has been paid: when the attempt that stored the receipt took
      the points. No other attempt ever does; and that one did, unless something outside failed, exactly if
      the row of the user could bear it then. */
  lemma PaidExactly(log: seq<Attempt>, receipts: set<string>, cost: int, key: string, i: nat)
    requires LogOk(log, receipts, cost) && StoredBy(log, key, i)
    ensures IsPaid(log, key) <==> log[i].paidBy.Some?
    ensures !log[i].failed ==> (IsPaid(log, key) <==> CanBeCharged(log[i].rows, log[i].userId, 0 - cost))
    ensures forall k: nat :: StoredBy(log, key, k) ==> k == i
  {
    hide CanBeCharged, Owners;
    assert AttemptOk(log[i], cost);
    if IsPaid(log, key) {
      var a :| a in log && KeyOf(a) == key && a.paidBy.Some?;
      var k :| 0 <= k < |log| && log[k] == a;
      assert AttemptOk(a, cost);
    }
  }

  /** How many attempts something outside has failed in. */
  ghost function Failures(log: seq<Attempt>): nat {
    if log == [] then 0
    else Failures(log[..|log| - 1]) + if log[|log| - 1].failed then 1 else 0
  }

  lemma {:induction false} FailuresAdd(first: seq<Attempt>, second: seq<Attempt>)
    ensures Failures(first + second) == Failures(first) + Failures(second)
  {
    if second == [] {
      assert first + second == first;
    } else {
      var both := first + second;
      assert both[..|both| - 1] == first + second[..|second| - 1];
      FailuresAdd(first, second[..|second| - 1]);
    }
  }

  lemma {:induction false} NoFailures(log: seq<Attempt>)
    requires Failures(log) == 0
    ensures forall a <- log :: !a.failed
  {
    if log != [] {
      NoFailures(log[..|log| - 1]);
      assert log == log[..|log| - 1] + [log[|log| - 1]];
    }
  }

  /** What one row has paid. */
  ghost function Spent(log: seq<Attempt>, row: string, cost: int): int {
    if log == [] then 0
    else
      var last := log[|log| - 1];
      Spent(log[..|log| - 1], row, cost) + if last.paidBy == Some(row) then cost else 0
  }

  /** The attempts account for every change of the rows: each balance went down by what its row has paid. */
  ghost predicate Balanced(before: Rows, after: Rows, log: seq<Attempt>, cost: int) {
    && after.Keys == before.Keys
    && forall k <- before :: after[k] == before[k].(balance := before[k].balance - Spent(log, k, cost))
  }

  lemma {:induction false} SpentAdds(first: seq<Attempt>, second: seq<Attempt>, row: string, cost: int)
    ensures Spent(first + second, row, cost) == Spent(first, row, cost) + Spent(second, row, cost)
  {
    if second == [] {
      assert first + second == first;
    } else {
      var both := first + second;
      assert both[..|both| - 1] == first + second[..|second| - 1];
      SpentAdds(first, second[..|second| - 1], row, cost);
    }
  }

  lemma BalancedByNone(rows: Rows, cost: int)
    ensures Balanced(rows, rows, [], cost)
  {
  }

  lemma BalancedAdds(before: Rows, between: Rows, after: Rows, first: seq<Attempt>, second: seq<Attempt>, cost: int)
    requires Balanced(before, between, first, cost) && Balanced(between, after, second, cost)
    ensures Balanced(before, after, first + second, cost)
  {
    forall k | k in before
      ensures after[k] == before[k].(balance := before[k].balance - Spent(first + second, k, cost))
    {
      SpentAdds(first, second, k, cost);
    }
  }

  /** Every attempt notes the rows as the earlier payments had left them. */
  ghost predicate Traced(before: Rows, made: seq<Attempt>, cost: int) {
    forall i :: 0 <= i < |made| ==> Balanced(before, made[i].rows, made[..i], cost)
  }

  lemma TracedGrows(before: Rows, made: seq<Attempt>, a: Attempt, cost: int)
    requires Traced(before, made, cost) && Balanced(before, a.rows, made, cost)
    ensures Traced(before, made + [a], cost)
  {
    hide Balanced;
    var more := made + [a];
    assert more[..|made|] == made;
    forall i | 0 <= i < |more|
      ensures Balanced(before, more[i].rows, more[..i], cost)
    {
      assert i < |made| ==> more[..i] == made[..i];
    }
  }

  lemma TracedAdds(before: Rows, between: Rows, first: seq<Attempt>, second: seq<Attempt>, cost: int)
    requires Traced(before, first, cost) && Balanced(before, between, first, cost) && Traced(between, second, cost)
    ensures Traced(before, first + second, cost)
  {
    hide Balanced;
    var both := first + second;
    forall i | 0 <= i < |both|
      ensures Balanced(before, both[i].rows, both[..i], cost)
    {
      if i < |first| {
        assert both[..i] == first[..i];
      } else {
        assert both[..i] == first + second[..i - |first|];
        BalancedAdds(before, between, both[i].rows, first, second[..i - |first|], cost);
      }
    }
  }

  /** The receipts with those that the attempts stored. */
  ghost function WithReceipts(receipts: set<string>, made: seq<Attempt>): set<string> {
    receipts + set a <- made | a.stored :: KeyOf(a)
  }

  /** An attempt that does not fail stores the receipt exactly if there is none yet; no attempt stores one that
      is there. */
  ghost predicate StoresNew(receipts: set<string>, made: seq<Attempt>) {
    forall i :: 0 <= i < |made| ==>
                  if made[i].stored then KeyOf(made[i]) !in WithReceipts(receipts, made[..i])
                  else made[i].failed || KeyOf(made[i]) in WithReceipts(receipts, made[..i])
  }

  lemma WithReceiptsAdds(receipts: set<string>, first: seq<Attempt>, second: seq<Attempt>)
    ensures WithReceipts(WithReceipts(receipts, first), second) == WithReceipts(receipts, first + second)
  {
    var both := first + second;
    assert forall a :: a in both <==> a in first || a in second;
  }

  lemma OneReceipt(receipts: set<string>, a: Attempt)
    ensures WithReceipts(receipts, [a]) == receipts + if a.stored then {KeyOf(a)} else {}
  {
  }

  lemma StoresNewAdds(receipts: set<string>, first: seq<Attempt>, second: seq<Attempt>)
    requires StoresNew(receipts, first) && StoresNew(WithReceipts(receipts, first), second)
    ensures StoresNew(receipts, first + second)
  {
    hide WithReceipts;
    var both := first + second;
    forall i | 0 <= i < |both|
      ensures if both[i].stored then KeyOf(both[i]) !in WithReceipts(receipts, both[..i])
              else both[i].failed || KeyOf(both[i]) in WithReceipts(receipts, both[..i])
    {
      if i < |first| {
        assert both[..i] == first[..i];
      } else {
        assert both[..i] == first + second[..i - |first|];
        WithReceiptsAdds(receipts, first, second[..i - |first|]);
      }
    }
  }

  lemma OneStoresNew(receipts: set<string>, a: Attempt)
    requires if a.stored then KeyOf(a) !in receipts else a.failed || KeyOf(a) in receipts
    ensures StoresNew(receipts, [a])
  {
    assert [a][..0] == [] && WithReceipts(receipts, []) == receipts;
  }

  /** The users who have enough points and a summoner, in the order of the list. */
  function Payers(users: seq<LolUser>, cost: int): seq<LolUser> {
    if users == [] then []
    else
      var last := users[|users| - 1];
      Payers(users[..|users| - 1], cost) + if cost <= last.balance && Parse(last.summonerId).Some? then [last] else []
  }

  lemma PayersGrow(users: seq<LolUser>, u: LolUser, cost: int)
    ensures Payers(users + [u], cost) ==
            Payers(users, cost) + if cost <= u.balance && Parse(u.summonerId).Some? then [u] else []
  {
    assert (users + [u])[..|users|] == users;
  }

  lemma {:induction false} PayersArePaying(users: seq<LolUser>, cost: int)
    ensures |Payers(users, cost)| == |Paying(users, cost)|
    ensures forall k :: 0 <= k < |Payers(users, cost)| ==>
                          Payers(users, cost)[k] in users
                          && CanPay(Payers(users, cost)[k], Paying(users, cost)[k], cost)
    ensures forall u <- users, n | CanPay(u, n, cost) :: u in Payers(users, cost)
  {
    if users != [] {
      PayersArePaying(users[..|users| - 1], cost);
      assert users == users[..|users| - 1] + [users[|users| - 1]];
    }
  }

  /** The summoners of those users who have enough points, in the order of the list. */
  function Paying(users: seq<LolUser>, cost: int): (r: seq<int>) {
    if users == [] then []
    else
      var last := users[|users| - 1];
      var rest := Paying(users[..|users| - 1], cost);
      match Parse(last.summonerId)
      case Some(n) => if last.balance < cost then rest else rest + [n]
      case None => rest
  }

  lemma PayingGrows(users: seq<LolUser>, u: LolUser, cost: int)
    ensures Paying(users + [u], cost) == Paying(users, cost)
                                         + if cost <= u.balance && Parse(u.summonerId).Some?
                                         then [Parse(u.summonerId).value] else []
  {
    assert (users + [u])[..|users|] == users;
  }

  predicate CanPay(user: LolUser, n: int, cost: int) {
    cost <= user.balance && Parse(user.summonerId) == Some(n)
  }

  /** One match whose message was delivered. */
  datatype Job = Job(matchId: int, platform: string, users: seq<LolUser>)

  /** Everyone listed who can pay has a receipt. */
  ghost predicate AllHaveReceipts(job: Job, users: seq<LolUser>, receipts: set<string>, cost: int) {
    forall u <- users, n | CanPay(u, n, cost) :: ReceiptKey(job.matchId, job.platform, n) in receipts
  }

  /** Everyone listed who can pay has a receipt, and it is paid for exactly if the attempt that first stored
      it took the points, which it did, unless something outside failed, exactly if they were there. */
  ghost predicate Served(job: Job, log: seq<Attempt>, cost: int) {
    forall u <- job.users, n | CanPay(u, n, cost) :: ServedAs(log, ReceiptKey(job.matchId, job.platform, n), cost)
  }

  ghost predicate ServedAs(log: seq<Attempt>, key: string, cost: int) {
    exists i: nat ::
      && StoredBy(log, key, i)
      && (IsPaid(log, key) <==> log[i].paidBy.Some?)
      && (!log[i].failed ==> (IsPaid(log, key) <==> CanBeCharged(log[i].rows, log[i].userId, 0 - cost)))
  }

  lemma ReceiptsAreServed(job: Job, log: seq<Attempt>, receipts: set<string>, cost: int)
    requires LogOk(log, receipts, cost) && AllHaveReceipts(job, job.users, receipts, cost)
    ensures Served(job, log, cost)
  {
    hide AttemptOk, CanBeCharged;
    forall u, n | u in job.users && CanPay(u, n, cost)
      ensures ServedAs(log, ReceiptKey(job.matchId, job.platform, n), cost)
    {
      var key := ReceiptKey(job.matchId, job.platform, n);
      var a :| a in log && a.stored && KeyOf(a) == key;
      var i :| 0 <= i < |log| && log[i] == a;
      assert StoredBy(log, key, i);
      PaidExactly(log, receipts, cost, key, i);
    }
  }

  lemma LogGrows(log: seq<Attempt>, receipts: set<string>, a: Attempt, cost: int)
    requires LogOk(log, receipts, cost) && AttemptOk(a, cost) && (a.stored ==> KeyOf(a) !in receipts)
    ensures LogOk(log + [a], if a.stored then receipts + {KeyOf(a)} else receipts, cost)
  {
    var more := log + [a];
    assert forall b <- log :: b in more;
    assert a in more;
    forall i, j | 0 <= i < j < |more| && more[i].stored && more[j].stored
      ensures KeyOf(more[i]) != KeyOf(more[j])
    {
      assert more[i] in log;
    }
  }

  class DispatchHandler {
    const store: LolUserStore
    const cost: int
    var receipts: set<string>
    var published: seq<seq<int>>
    ghost var log: seq<Attempt>
    /** How many accesses to the receipts and messages were refused or failed. */
    ghost var faults: nat

    constructor (store: LolUserStore, cost: int)
      requires 0 <= cost && InRange(cost) && Solvent(store.rows)
      ensures this.store == store && this.cost == cost && Valid()
      ensures receipts == {} && published == [] && log == [] && faults == 0
    {
      this.store, this.cost, receipts, published := store, cost, {}, [];
      log, faults := [], 0;
    }

    ghost predicate Valid()
      reads this, store
    {
      0 <= cost && InRange(cost) && Solvent(store.rows) && LogOk(log, receipts, cost)
    }

    ghost function Faults(): nat
      reads this, store
    {
      faults + store.faults
    }

    /** Looks for the receipt and stores one if there is none. A failed write may have stored it. */
    method SaveMatchReceipt(platform: string, matchId: int, summonerId: int) returns (ok: bool, found: bool)
      modifies this`receipts, this`faults
      ensures faults == old(faults) + if ok then 0 else 1
      ensures found ==> ok
      ensures ok ==> found == (ReceiptKey(matchId, platform, summonerId) in old(receipts))
      ensures ok ==> receipts == old(receipts) + {ReceiptKey(matchId, platform, summonerId)}
      ensures receipts == old(receipts) || receipts == old(receipts) + {ReceiptKey(matchId, platform, summonerId)}
    {
      var key := ReceiptKey(matchId, platform, summonerId);
      var readable := *;
      if !readable {
        faults := faults + 1;
        return false, false;
      }
      if key in receipts {
        return true, true;
      }
      ok := *;
      var stored := *;
      if !ok {
        faults := faults + 1;
      }
      if ok || stored {
        receipts := receipts + {key};
      }
      found := false;
    }

    /** Charges a user for a match, unless there is a receipt already. */
    method Purchase(user: LolUser, matchId: int, platform: string, summonerId: int)
      returns (ok: bool, ghost a: Attempt)
      requires Valid()
      modifies this`receipts, this`log, this`faults, store
      ensures Valid() && log == old(log) + [a] && Balanced(old(store.rows), store.rows, [a], cost)
      ensures IsFor(a, matchId, platform, summonerId, user.userId) && a.rows == old(store.rows) && PaidIfAble(a, cost)
      ensures receipts == old(receipts) + if a.stored then {KeyOf(a)} else {}
      ensures if a.stored then KeyOf(a) !in old(receipts) else a.failed || KeyOf(a) in old(receipts)
      ensures old(Faults()) + (if a.failed then 1 else 0) <= Faults() && (ok ==> Faults() == old(Faults()))
      ensures ok ==> KeyOf(a) in receipts && !a.failed && (a.stored ==> a.paidBy.Some?)
      ensures !ok ==> a.failed || (a.told && a.paidBy.None? && !CanBeCharged(a.rows, a.userId, 0 - cost))
    {
      hide LogOk, Solvent;
      ghost var rows, receipts0 := store.rows, receipts;
      ghost var key := ReceiptKey(matchId, platform, summonerId);
      var saved, known := SaveMatchReceipt(platform, matchId, summonerId);
      ghost var stored := key in receipts && key !in receipts0;
      assert receipts == if stored then receipts0 + {key} else receipts0;
      if !saved || known {
        a := Attempt(matchId, platform, summonerId, user.userId, stored, false, !saved, None, rows);
        LogGrows(log, receipts0, a, cost);
        log := log + [a];
        NothingSpent(rows, a, cost);
        return saved, a;
      }
      ghost var paidBy;
      ok, paidBy := store.AdjustVantagePoints(user.userId, 0 - cost);
      a := Attempt(
        matchId, platform, summonerId, user.userId, true, true, Faults() > old(Faults()), paidBy, rows);
      LogGrows(log, receipts0, a, cost);
      log := log + [a];
      OneSpent(rows, store.rows, a, cost);
    }

    /** Charges everyone listed who can pay, in turn, until something fails. */
    method ChargeAll(job: Job) returns (ok: bool, summonerIds: seq<int>, ghost made: seq<Attempt>)
      requires Valid()
      modifies this`receipts, this`log, this`faults, store
      ensures Valid() && receipts == WithReceipts(old(receipts), made) && StoresNew(old(receipts), made)
      ensures log == old(log) + made && Balanced(old(store.rows), store.rows, made, cost)
      ensures Traced(old(store.rows), made, cost) && forall a <- made :: PaidIfAble(a, cost)
      ensures InTurn(job, made, cost) && old(Faults()) + Failures(made) <= Faults()
      ensures ok ==> |made| == |Payers(job.users, cost)|
      ensures ok ==> AllHaveReceipts(job, job.users, receipts, cost) && NothingUnpaid(made)
      ensures ok ==> summonerIds == Paying(job.users, cost) && Faults() == old(Faults())
      ensures !ok ==> made != [] && StoppedBy(made[|made| - 1], cost)
    {
      hide LogOk, Balanced, Solvent, InTurn, Traced, PaidIfAble, Payers, WithReceipts, StoresNew;
      summonerIds, made := [], [];
      BalancedByNone(store.rows, cost);
      NothingMade(job, store.rows, cost);
      NothingStored(receipts);
      for i := 0 to |job.users|
        invariant Valid() && old(receipts) <= receipts == WithReceipts(old(receipts), made)
                  && StoresNew(old(receipts), made)
        invariant log == old(log) + made && Balanced(old(store.rows), store.rows, made, cost)
        invariant Traced(old(store.rows), made, cost) && forall a <- made :: PaidIfAble(a, cost)
        invariant summonerIds == Paying(job.users[..i], cost)
        invariant InTurn(job, made, cost) && |made| == |Payers(job.users[..i], cost)|
        invariant old(Faults()) + Failures(made) <= Faults() == old(Faults())
        invariant AllHaveReceipts(job, job.users[..i], receipts, cost) && NothingUnpaid(made)
      {
        var u := job.users[i];
        assert job.users[..i + 1] == job.users[..i] + [u];
        PayingGrows(job.users[..i], u, cost);
        PayersGrow(job.users[..i], u, cost);
        var id := Parse(u.summonerId);
        if u.balance < cost || id.None? {
          continue;
        }
        ghost var rows, receipts0 := store.rows, receipts;
        ghost var a;
        ok, a := Purchase(u, job.matchId, job.platform, id.value);
        BalancedAdds(old(store.rows), rows, store.rows, made, [a], cost);
        TracedGrows(old(store.rows), made, a, cost);
        StoresNewGrows(old(receipts), receipts0, receipts, made, a);
        FailuresAdd(made, [a]);
        OneFailure(a);
        NextInTurn(job, made, a, i, cost);
        made := made + [a];
        if !ok {
          return false, summonerIds, made;
        }
        summonerIds := summonerIds + [id.value];
      }
      assert job.users[..|job.users|] == job.users;
      ok := true;
    }

    /** Sends a message. When an error is reported it may have been sent. */
    method Publish(summonerIds: seq<int>) returns (ok: bool)
      modifies this`published, this`faults
      ensures faults == old(faults) + if ok then 0 else 1
      ensures published == old(published) || published == old(published) + [summonerIds]
      ensures ok ==> published == old(published) + [summonerIds]
    {
      ok := *;
      var sent := *;
      if !ok {
        faults := faults + 1;
      }
      if ok || sent {
        published := published + [summonerIds];
      }
    }

    /** Charges the users of a match and asks for their replays to be analysed. Whatever fails on the way,
        nothing is charged that has a receipt. */
    method SendElogen(job: Job) returns (ok: bool, ghost made: seq<Attempt>)
      requires Valid()
      modifies this`receipts, this`log, this`published, this`faults, store
      ensures Valid() && receipts == WithReceipts(old(receipts), made) && StoresNew(old(receipts), made)
      ensures log == old(log) + made && Balanced(old(store.rows), store.rows, made, cost)
      ensures Traced(old(store.rows), made, cost) && forall a <- made :: PaidIfAble(a, cost)
      ensures InTurn(job, made, cost) && old(Faults()) + Failures(made) <= Faults()
      ensures ok ==> |made| == |Payers(job.users, cost)|
      ensures ok ==> AllHaveReceipts(job, job.users, receipts, cost) && NothingUnpaid(made) && Served(job, log, cost)
      ensures ok ==> Faults() == old(Faults())
      ensures !ok ==> Faults() > old(Faults()) || (made != [] && StoppedBy(made[|made| - 1], cost))
      ensures !ok && Faults() == old(Faults()) ==> published == old(published)
      ensures ok && Paying(job.users, cost) == [] ==> published == old(published)
      ensures ok && Paying(job.users, cost) != [] ==>
                exists ids :: IsUniqueOf(ids, Paying(job.users, cost)) && published == old(published) + [ids]
    {
      hide LogOk, Balanced, Solvent, InTurn, AllHaveReceipts, Served, IsUniqueOf, Paying, Payers, StoppedBy, Failures,
        Traced, PaidIfAble, NothingUnpaid, WithReceipts, StoresNew;
      var summonerIds;
      ok, summonerIds, made := ChargeAll(job);
      if !ok {
        return;
      }
      ReceiptsAreServed(job, log, receipts, cost);
      if |summonerIds| == 0 {
        return;
      }
      var unique := UniqueInts(summonerIds);
      var valid := *;
      if !valid {
        faults := faults + 1;
        return false, made;
      }
      ok := Publish(unique);
    }

    /** Deliveries one after the other, of any matches and in any order, a failed one as often as it is
        tried again: nobody pays twice, the attempts account for every point, and whoever was on a list that
        was delivered with success has paid exactly if the attempt that stored his receipt took the points.
        Unless something outside failed in it, an attempt that stored a receipt took the points exactly if the
        row of the user could bear it, as the payments before had left it. */
    method Serve(jobs: seq<Job>) returns (oks: seq<bool>, ghost parts: seq<seq<Attempt>>)
      requires Valid()
      modifies this`receipts, this`log, this`published, this`faults, store
      ensures Valid() && log == old(log) + Joined(parts)
      ensures receipts == WithReceipts(old(receipts), Joined(parts)) && StoresNew(old(receipts), Joined(parts))
      ensures Balanced(old(store.rows), store.rows, Joined(parts), cost) && Traced(old(store.rows), Joined(parts), cost)
      ensures forall a <- Joined(parts) :: PaidIfAble(a, cost)
      ensures |parts| == |jobs| && forall i :: 0 <= i < |jobs| ==> InTurn(jobs[i], parts[i], cost)
      ensures old(Faults()) + Failures(Joined(parts)) <= Faults()
      ensures PaidOnce(log)
      ensures |oks| == |jobs| && forall i :: 0 <= i < |jobs| && oks[i] ==> Served(jobs[i], log, cost)
      ensures forall i :: 0 <= i < |jobs| && oks[i] ==>
                            |parts[i]| == |Payers(jobs[i].users, cost)| && NothingUnpaid(parts[i])
      ensures Faults() == old(Faults()) ==>
                forall a <- Joined(parts) :: a.stored ==> (a.paidBy.Some? <==> CanBeCharged(a.rows, a.userId, 0 - cost))
    {
      hide LogOk, Balanced, Traced, Solvent, InTurn, AllHaveReceipts, Served, Failures, PaidOnce, StoppedBy,
        CanBeCharged,
        Paying, Payers, PaidIfAble, NothingUnpaid, Joined, WithReceipts, StoresNew;
      oks, parts := [], [];
      ghost var made: seq<Attempt> := [];
      BalancedByNone(store.rows, cost);
      TracedByNone(store.rows, cost);
      NothingStored(receipts);
      NoneFailed();
      for i := 0 to |jobs|
        invariant Valid() && made == Joined(parts) && log == old(log) + made
        invariant receipts == WithReceipts(old(receipts), made) && StoresNew(old(receipts), made)
        invariant Balanced(old(store.rows), store.rows, made, cost) && Traced(old(store.rows), made, cost)
        invariant forall a <- made :: PaidIfAble(a, cost)
        invariant old(Faults()) + Failures(made) <= Faults()
        invariant |oks| == |parts| == i
        invariant forall k :: 0 <= k < i ==> InTurn(jobs[k], parts[k], cost)
        invariant forall k :: 0 <= k < i && oks[k] ==>
                                |parts[k]| == |Payers(jobs[k].users, cost)| && NothingUnpaid(parts[k])
        invariant forall k :: 0 <= k < i && oks[k] ==> AllHaveReceipts(jobs[k], jobs[k].users, receipts, cost)
      {
        ghost var rows, receipts0 := store.rows, receipts;
        ghost var more;
        var ok;
        ok, more := SendElogen(jobs[i]);
        BalancedAdds(old(store.rows), rows, store.rows, made, more, cost);
        TracedAdds(old(store.rows), rows, made, more, cost);
        WithReceiptsAdds(old(receipts), made, more);
        StoresNewAdds(old(receipts), made, more);
        ReceiptsGrow(receipts0, more);
        FailuresAdd(made, more);
        forall k | 0 <= k < i && oks[k]
          ensures AllHaveReceipts(jobs[k], jobs[k].users, receipts, cost)
        {
          ReceiptsStay(jobs[k], receipts0, receipts, cost);
        }
        JoinedGrows(parts, more);
        parts, made := parts + [more], made + more;
        oks := oks + [ok];
      }
      forall k | 0 <= k < |jobs| && oks[k]
        ensures Served(jobs[k], log, cost)
      {
        ReceiptsAreServed(jobs[k], log, receipts, cost);
      }
      NobodyPaysTwice(log, receipts, cost);
      PaidAsAble(made, cost, Faults() == old(Faults()));
    }
  }

  /** All attempts of the deliveries, one after the other. */
  ghost function Joined(parts: seq<seq<Attempt>>): seq<Attempt> {
    if parts == [] then [] else Joined(parts[..|parts| - 1]) + parts[|parts| - 1]
  }

  lemma JoinedGrows(parts: seq<seq<Attempt>>, more: seq<Attempt>)
    ensures Joined(parts + [more]) == Joined(parts) + more
  {
    assert (parts + [more])[..|parts|] == parts;
  }

  lemma NothingStored(receipts: set<string>)
    ensures WithReceipts(receipts, []) == receipts && StoresNew(receipts, [])
  {
  }

  lemma ReceiptsGrow(receipts: set<string>, made: seq<Attempt>)
    ensures receipts <= WithReceipts(receipts, made)
  {
  }

  lemma StoresNewGrows(first: set<string>, before: set<string>, after: set<string>, made: seq<Attempt>, a: Attempt)
    requires before == WithReceipts(first, made) && StoresNew(first, made)
    requires after == before + if a.stored then {KeyOf(a)} else {}
    requires if a.stored then KeyOf(a) !in before else a.failed || KeyOf(a) in before
    ensures after == WithReceipts(first, made + [a]) && StoresNew(first, made + [a])
    ensures first <= after
  {
    hide StoresNew;
    WithReceiptsAdds(first, made, [a]);
    OneReceipt(before, a);
    OneStoresNew(before, a);
    StoresNewAdds(first, made, [a]);
  }

  lemma TracedByNone(rows: Rows, cost: int)
    ensures Traced(rows, [], cost) && Joined([]) == []
  {
  }

  ghost predicate IsFor(a: Attempt, matchId: int, platform: string, summonerId: int, userId: string) {
    a.matchId == matchId && a.platform == platform && a.summonerId == summonerId && a.userId == userId
  }

  /** A delivery sells its own match to the listed users who can pay, one after the other. */
  ghost predicate InTurn(job: Job, made: seq<Attempt>, cost: int) {
    var payers := Payers(job.users, cost);
    && |made| <= |payers|
    && forall k :: 0 <= k < |made| ==>
                     && Parse(payers[k].summonerId) == Some(made[k].summonerId)
                     && IsFor(made[k], job.matchId, job.platform, made[k].summonerId, payers[k].userId)
  }

  /** Whoever got a receipt has paid. */
  ghost predicate NothingUnpaid(made: seq<Attempt>) {
    forall a <- made :: a.stored ==> a.paidBy.Some?
  }

  /** The same users with other balances. */
  ghost predicate SameUsers(before: Rows, after: Rows) {
    after.Keys == before.Keys && forall k <- before :: after[k] == before[k].(balance := after[k].balance)
  }

  /** Only balances differ between the rows that attempts note. */
  lemma UsersStay(before: Rows, made: seq<Attempt>, cost: int)
    requires Traced(before, made, cost)
    ensures forall a <- made :: SameUsers(before, a.rows)
  {
    forall a | a in made
      ensures SameUsers(before, a.rows)
    {
      var i :| 0 <= i < |made| && made[i] == a;
      assert Balanced(before, made[i].rows, made[..i], cost);
    }
  }

  lemma NothingMade(job: Job, rows: Rows, cost: int)
    ensures InTurn(job, [], cost) && Traced(rows, [], cost) && Payers([], cost) == []
  {
  }

  lemma {:induction false} FirstPayers(users: seq<LolUser>, i: nat, cost: int)
    requires i <= |users|
    ensures Payers(users[..i], cost) <= Payers(users, cost)
    decreases |users|
  {
    if i == |users| {
      assert users[..i] == users;
    } else {
      var front := users[..|users| - 1];
      assert front[..i] == users[..i];
      FirstPayers(front, i, cost);
    }
  }

  lemma NextInTurn(job: Job, made: seq<Attempt>, a: Attempt, i: nat, cost: int)
    requires i < |job.users| && InTurn(job, made, cost) && |made| == |Payers(job.users[..i], cost)|
    requires var u := job.users[i];
             CanPay(u, a.summonerId, cost) && IsFor(a, job.matchId, job.platform, a.summonerId, u.userId)
    ensures InTurn(job, made + [a], cost)
  {
    hide Payers;
    var u := job.users[i];
    assert job.users[..i + 1] == job.users[..i] + [u];
    PayersGrow(job.users[..i], u, cost);
    FirstPayers(job.users, i + 1, cost);
    assert Payers(job.users, cost)[|made|] == u;
  }

  /** The attempt at which a delivery gives up. */
  ghost predicate StoppedBy(a: Attempt, cost: int) {
    a.failed || (a.told && a.paidBy.None? && !CanBeCharged(a.rows, a.userId, 0 - cost))
  }

  lemma NothingSpent(rows: Rows, a: Attempt, cost: int)
    requires a.paidBy.None?
    ensures Balanced(rows, rows, [a], cost)
  {
    assert [a][..0] == [];
  }

  lemma OneSpent(before: Rows, after: Rows, a: Attempt, cost: int)
    requires match a.paidBy
             case None => after == before
             case Some(k) => k in before && after == before[k := before[k].(balance := before[k].balance - cost)]
    ensures Balanced(before, after, [a], cost)
  {
    assert [a][..0] == [];
  }

  lemma NoneFailed()
    ensures Failures([]) == 0
  {
  }

  lemma OneFailure(a: Attempt)
    ensures Failures([a]) == if a.failed then 1 else 0
  {
    assert [a][..0] == [];
  }

  lemma ReceiptsStay(job: Job, receipts: set<string>, more: set<string>, cost: int)
    requires receipts <= more && AllHaveReceipts(job, job.users, receipts, cost)
    ensures AllHaveReceipts(job, job.users, more, cost)
  {
  }

  /** No two attempts that took points are for the same match, platform and summoner. */
  ghost predicate PaidOnce(log: seq<Attempt>) {
    forall i, j :: 0 <= i < j < |log| && log[i].paidBy.Some? && log[j].paidBy.Some? ==>
                     !(log[i].matchId == log[j].matchId && log[i].platform == log[j].platform
                       && log[i].summonerId == log[j].summonerId)
  }

  lemma NobodyPaysTwice(log: seq<Attempt>, receipts: set<string>, cost: int)
    requires LogOk(log, receipts, cost)
    ensures PaidOnce(log)
  {
    forall i, j | 0 <= i < j < |log| && log[i].paidBy.Some? && log[j].paidBy.Some?
      ensures KeyOf(log[i]) != KeyOf(log[j])
    {
      assert AttemptOk(log[i], cost) && AttemptOk(log[j], cost);
    }
  }

  lemma PaidAsAble(made: seq<Attempt>, cost: int, clean: bool)
    requires (forall a <- made :: PaidIfAble(a, cost)) && (clean ==> Failures(made) == 0)
    ensures clean ==> forall a <- made :: a.stored ==> (a.paidBy.Some? <==> CanBeCharged(a.rows, a.userId, 0 - cost))
  {
    hide CanBeCharged;
    if clean {
      NoFailures(made);
    }
  }

  // ---------- A match that is analysed for nothing ----------

  const POOR := LolUser("u", "7", "na", "", 100, true)

  lemma {:induction false} SpentAtLeast(made: seq<Attempt>, a: Attempt, row: string, cost: int)
    requires 0 <= cost
    ensures 0 <= Spent(made, row, cost)
    ensures a in made && a.paidBy == Some(row) ==> cost <= Spent(made, row, cost)
  {
    if made != [] {
      SpentAtLeast(made[..|made| - 1], a, row, cost);
      assert made == made[..|made| - 1] + [made[|made| - 1]];
    }
  }

  lemma {:induction false} NobodySpent(made: seq<Attempt>, row: string, cost: int)
    requires forall a <- made :: a.paidBy.None?
    ensures Spent(made, row, cost) == 0
  {
    if made != [] {
      NobodySpent(made[..|made| - 1], row, cost);
    }
  }

  lemma PoorIsTheOnlyOwner(rows: Rows, userId: string, row: string)
    requires SameUsers(map["1" := POOR], rows) && Owners(rows, userId) == {row}
    ensures row == "1"
  {
    assert row in Owners(rows, userId);
  }

  /** With 100 points nobody pays 200. */
  lemma PoorPaysNothing(log: seq<Attempt>, receipts: set<string>, after: Rows, made: seq<Attempt>)
    requires LogOk(log, receipts, 200) && (forall a <- made :: a in log) && Traced(map["1" := POOR], made, 200)
    requires Balanced(map["1" := POOR], after, made, 200) && Solvent(after)
    ensures (forall a <- made :: a.paidBy.None?) && after == map["1" := POOR]
  {
    hide Traced, SameUsers, Owners, CanBeCharged;
    var before := map["1" := POOR];
    UsersStay(before, made, 200);
    forall a | a in made
      ensures a.paidBy.None?
    {
      if a.paidBy.Some? {
        assert AttemptOk(a, 200);
        PoorIsTheOnlyOwner(a.rows, a.userId, a.paidBy.value);
        SpentAtLeast(made, a, "1", 200);
      }
    }
    forall k | k in before
      ensures after[k] == before[k]
    {
      NobodySpent(made, k, 200);
    }
  }

  lemma OnlyPoorIsPaying(job: Job)
    requires job == Job(1, "NA1", [POOR.(balance := 500)])
    ensures Paying(job.users, 200) == [7] && CanPay(job.users[0], 7, 200)
    ensures forall u <- job.users, n | CanPay(u, n, 200) :: n == 7
  {
    var u := POOR.(balance := 500);
    assert u.summonerId[..0] == "" && AllDigits("7") && ParseNat("7") == 7;
    assert Parse("7") == Some(7);
    PayingGrows([], u, 200);
    assert [] + [u] == job.users;
  }

  lemma OnlyPoorIsAttempted(job: Job, made: seq<Attempt>)
    requires job == Job(1, "NA1", [POOR.(balance := 500)]) && InTurn(job, made, 200)
    ensures forall a <- made :: a.userId == "u" && KeyOf(a) == ReceiptKey(1, "NA1", 7)
  {
    OnlyPoorIsPaying(job);
    PayersArePaying(job.users, 200);
  }

  lemma NotDistinct(ids: seq<int>, x: int)
    requires |ids| > 1 && forall i :: 0 <= i < |ids| ==> ids[i] == x
    ensures !Distinct(ids)
  {
    assert ids[0] == ids[1];
  }

  lemma OneIsUnique(ids: seq<int>)
    requires IsUniqueOf(ids, [7])
    ensures ids == [7]
  {
    assert 7 in ids && forall i :: 0 <= i < |ids| ==> ids[i] in ids;
    if |ids| > 1 {
      NotDistinct(ids, 7);
    }
  }

  /** A user with 100 points, whom an older listing shows with 500, is to pay 200. If nothing outside fails,
      the first delivery stores the receipt, is refused the points and fails; the second succeeds and asks for
      the analysis; and nobody has paid anything. */
  method AnalysedForNothing() returns (first: bool, second: bool, ghost handler: DispatchHandler)
    ensures fresh(handler) && fresh(handler.store)
    ensures handler.Faults() == 0 ==>
              && !first && second
              && ReceiptKey(1, "NA1", 7) in handler.receipts && handler.published == [[7]]
              && (forall row :: Spent(handler.log, row, handler.cost) == 0)
              && handler.store.rows == map["1" := POOR]
  {
    var store := new LolUserStore(map["1" := POOR]);
    var h := new DispatchHandler(store, 200);
    handler := h;
    var job := Job(1, "NA1", [POOR.(balance := 500)]);
    OnlyPoorIsPaying(job);
    ghost var firstMade, secondMade;
    ghost var key := ReceiptKey(1, "NA1", 7);
    first, firstMade := h.SendElogen(job);
    if h.Faults() == 0 {
      FirstIsRefused(h.log, h.receipts, store.rows, job, first, firstMade);
    }
    ghost var receipts := h.receipts;
    second, secondMade := h.SendElogen(job);
    if h.Faults() == 0 {
      assert key in receipts && h.log == firstMade + secondMade;
      SecondIsFree(h.log, h.receipts, store.rows, job, second, firstMade, secondMade);
      forall row
        ensures Spent(h.log, row, h.cost) == 0
      {
        NobodySpent(h.log, row, 200);
      }
      ghost var ids :| IsUniqueOf(ids, [7]) && h.published == [ids];
      OneIsUnique(ids);
    }
  }

  lemma FirstIsRefused(log: seq<Attempt>, receipts: set<string>, rows: Rows, job: Job, ok: bool, made: seq<Attempt>)
    requires job == Job(1, "NA1", [POOR.(balance := 500)])
    requires LogOk(log, receipts, 200) && log == made && Failures(made) == 0 && InTurn(job, made, 200)
    requires Traced(map["1" := POOR], made, 200)
    requires Balanced(map["1" := POOR], rows, made, 200) && Solvent(rows)
    requires ok ==> AllHaveReceipts(job, job.users, receipts, 200) && NothingUnpaid(made)
    requires !ok ==> made != [] && StoppedBy(made[|made| - 1], 200)
    ensures !ok && ReceiptKey(1, "NA1", 7) in receipts && rows == map["1" := POOR]
    ensures forall a <- made :: a.paidBy.None?
  {
    OnlyPoorIsAttempted(job, made);
    hide InTurn, Traced, Balanced, CanBeCharged;
    OnlyPoorIsPaying(job);
    PoorPaysNothing(log, receipts, rows, made);
    NoFailures(made);
    if ok {
      SomebodyStored(log, receipts, job);
    } else {
      var a := made[|made| - 1];
      assert a in made && AttemptOk(a, 200) && KeyOf(a) == ReceiptKey(1, "NA1", 7);
    }
  }

  lemma SomebodyStored(log: seq<Attempt>, receipts: set<string>, job: Job)
    requires job == Job(1, "NA1", [POOR.(balance := 500)])
    requires LogOk(log, receipts, 200) && AllHaveReceipts(job, job.users, receipts, 200)
    ensures exists a <- log :: a.stored
  {
    OnlyPoorIsPaying(job);
    var u := job.users[0];
    assert u in job.users && CanPay(u, 7, 200);
    assert ReceiptKey(1, "NA1", 7) in receipts;
  }

  lemma StoredOnlyOnce(log: seq<Attempt>, receipts: set<string>, first: seq<Attempt>, made: seq<Attempt>, b: Attempt)
    requires LogOk(log, receipts, 200) && log == first + made && b in first && b.stored
    ensures forall a <- made :: a.stored ==> KeyOf(a) != KeyOf(b)
  {
    var i :| 0 <= i < |first| && first[i] == b;
    forall a | a in made && a.stored
      ensures KeyOf(a) != KeyOf(b)
    {
      var j :| 0 <= j < |made| && made[j] == a;
      assert log[i] == b && log[|first| + j] == a;
    }
  }

  lemma SecondIsFree(
    log: seq<Attempt>, receipts: set<string>, rows: Rows, job: Job, ok: bool, first: seq<Attempt>, made: seq<Attempt>)
    requires job == Job(1, "NA1", [POOR.(balance := 500)])
    requires LogOk(log, receipts, 200) && log == first + made && Failures(made) == 0 && InTurn(job, made, 200)
    requires forall a <- first :: a.paidBy.None?
    requires Traced(map["1" := POOR], made, 200)
    requires Balanced(map["1" := POOR], rows, made, 200) && Solvent(rows)
    requires exists a <- first :: a.stored && KeyOf(a) == ReceiptKey(1, "NA1", 7)
    requires !ok ==> made != [] && StoppedBy(made[|made| - 1], 200)
    ensures ok && rows == map["1" := POOR] && forall a <- log :: a.paidBy.None?
  {
    OnlyPoorIsAttempted(job, made);
    hide InTurn, Traced, Balanced, CanBeCharged;
    OnlyPoorIsPaying(job);
    PoorPaysNothing(log, receipts, rows, made);
    NoFailures(made);
    var b :| b in first && b.stored && KeyOf(b) == ReceiptKey(1, "NA1", 7);
    StoredOnlyOnce(log, receipts, first, made, b);
    assert forall a <- made :: a in log && AttemptOk(a, 200) && KeyOf(a) == ReceiptKey(1, "NA1", 7);
  }
}
