/** The store of users and their points (lolusers-master/server/store.go). */
module LolUsers {
  import opened Decimal
  import opened Wrappers
  import MapOrder

  datatype LolUser = LolUser(
    userId: string, summonerId: string, region: string, verification: string, balance: int, confirmed: bool)

  type Rows = map<string, LolUser>

  const START_BALANCE := 400

  /** 64-bit two's complement. */
  function Wrapped(n: int): (r: int)
    ensures InRange(r)
    ensures InRange(n) ==> r == n
  {
    (n + 0x8000_0000_0000_0000) % 0x1_0000_0000_0000_0000 - 0x8000_0000_0000_0000
  }

  function Adjusted(balance: int, amount: int, absolute: bool): int {
    if absolute then amount else Wrapped(balance + amount)
  }

  /** No sum of a balance and an amount wraps around to a wrong balance that is accepted. */
  lemma AdjustmentsAreExact(balance: int, amount: int)
    requires InRange(balance) && InRange(amount) && 0 <= balance
    ensures 0 <= Adjusted(balance, amount, false) ==> Adjusted(balance, amount, false) == balance + amount
    ensures Adjusted(balance, amount, false) < 0 <==> balance + amount < 0 || !InRange(balance + amount)
  {
    var sum := balance + amount;
    if !InRange(sum) {
      assert (sum + 0x8000_0000_0000_0000) % 0x1_0000_0000_0000_0000 == sum - 0x8000_0000_0000_0000;
    }
  }

  /** Every stored balance is a 64-bit number that is not negative, and every row has a name. */
  ghost predicate Solvent(rows: Rows) {
    && "" !in rows
    && forall k <- rows :: InRange(rows[k].balance) && 0 <= rows[k].balance
  }

  /** The rows with the given user id. */
  function Owners(rows: Rows, userId: string): set<string> {
    set k <- rows | rows[k].userId == userId
  }

  /** The row that a charge to a user would go to can bear it. */
  ghost predicate CanBeCharged(rows: Rows, userId: string, amount: int) {
    && userId != ""
    && exists k <- rows :: Owners(rows, userId) == {k} && 0 <= rows[k].balance + amount
                           && InRange(rows[k].balance + amount)
  }

  /** The stored users, and how many accesses were refused or failed for reasons of their own. */
  class LolUserStore {
    var rows: Rows
    ghost var faults: nat

    constructor (rows: Rows)
      ensures this.rows == rows && faults == 0
    {
      this.rows, faults := rows, 0;
    }

    /** The end of a transaction. When an error is reported it may have been committed or not. */
    method Commit(key: string, row: LolUser) returns (ok: bool, ghost stored: bool)
      modifies this
      ensures rows == if stored then old(rows)[key := row] else old(rows)
      ensures ok ==> stored
      ensures faults == old(faults) + if ok then 0 else 1
    {
      ok := *;
      var written := *;
      if !ok {
        faults := faults + 1;
      }
      stored := ok || written;
      if ok || written {
        rows := rows[key := row];
      }
    }

    /** Everything but the balance is overwritten, also when another row is read under the same key. */
    method PutDetails(key: string, isNew: bool, l: LolUser) returns (ok: bool, ghost stored: bool)
      modifies this
      ensures ok ==> stored
      ensures !stored ==> rows == old(rows)
      ensures stored ==> key in rows && rows == old(rows)[key := rows[key]]
      ensures stored ==> rows[key] == l.(balance := rows[key].balance)
      ensures stored && isNew ==> rows[key].balance == START_BALANCE
      ensures stored && !isNew ==> rows[key].balance == if key in old(rows) then old(rows)[key].balance else 0
      ensures faults == old(faults) + if ok then 0 else 1
    {
      var readable := *;
      if !readable {
        faults := faults + 1;
        return false, false;
      }
      var balance := if key in rows then rows[key].balance else 0;
      if isNew {
        balance := START_BALANCE;
      }
      ok, stored := Commit(key, l.(balance := balance));
    }

    method PutPoints(key: string, amount: int, absolute: bool) returns (ok: bool, ghost stored: bool)
      requires InRange(amount)
      modifies this
      ensures ok ==> stored
      ensures stored ==> key in old(rows) && 0 <= Adjusted(old(rows)[key].balance, amount, absolute)
      ensures !stored ==> rows == old(rows)
      ensures stored ==>
                rows == old(rows)[key := old(rows)[key].(balance := Adjusted(old(rows)[key].balance, amount, absolute))]
      ensures old(faults) <= faults && (ok ==> faults == old(faults)) && (!ok && stored ==> faults > old(faults))
      ensures !ok ==>
                faults > old(faults) || key !in old(rows) || Adjusted(old(rows)[key].balance, amount, absolute) < 0
    {
      var readable := *;
      if !readable {
        faults := faults + 1;
        return false, false;
      } else if key !in rows {
        return false, false;
      }
      var balance := Adjusted(rows[key].balance, amount, absolute);
      if balance < 0 {
        return false, false;
      }
      ok, stored := Commit(key, rows[key].(balance := balance));
    }

    /** `id` is empty for a new user, whose key is then allocated if possible. No balance ever becomes
        negative, and only an adjustment changes the balance of an existing user. */
    method PutLolUser(id: string, l: LolUser, amount: int, absolute: bool, freshKey: Option<string>)
      returns (ok: bool, ghost stored: bool)
      requires Solvent(rows) && InRange(amount)
      requires freshKey.Some? ==> freshKey.value != "" && freshKey.value !in rows
      modifies this
      ensures Solvent(rows) && old(rows).Keys <= rows.Keys
      ensures ok ==> stored
      ensures !stored ==> rows == old(rows)
      ensures forall k <- old(rows) :: k != id ==> rows[k] == old(rows)[k]
      ensures amount == 0 && !absolute ==> forall k <- old(rows) :: rows[k].balance == old(rows)[k].balance
      ensures stored && id == "" ==>
                freshKey.Some? && rows == old(rows)[freshKey.value := l.(balance := START_BALANCE)]
      ensures stored && id in old(rows) && amount == 0 && !absolute ==>
                rows == old(rows)[id := l.(balance := old(rows)[id].balance)]
      ensures stored && id != "" && (amount != 0 || absolute) ==>
                && id in old(rows)
                && var balance := if absolute then amount else old(rows)[id].balance + amount;
                0 <= balance && rows == old(rows)[id := old(rows)[id].(balance := balance)]
      ensures old(faults) <= faults && (ok ==> faults == old(faults)) && (!ok && stored ==> faults > old(faults))
      ensures !ok ==>
                || faults > old(faults)
                || (id == "" && (freshKey.None? || amount != 0 || absolute))
                || (id != "" && (amount != 0 || absolute)
                    && (id !in old(rows) || Adjusted(old(rows)[id].balance, amount, absolute) < 0))
    {
      if id == "" && freshKey.None? {
        return false, false;
      }
      var key := if id == "" then freshKey.value else id;
      if amount == 0 && !absolute {
        ok, stored := PutDetails(key, id == "", l);
      } else {
        if key in rows {
          AdjustmentsAreExact(rows[key].balance, amount);
        }
        ok, stored := PutPoints(key, amount, absolute);
      }
    }

    /** The row of a user, or none if there is none. It fails when there are several. A failed read that
        yields no row is taken for a user without one. */
    method FetchByUserId(userId: string) returns (r: Result<Option<string>>)
      modifies this`faults
      ensures old(faults) <= faults && (r.Success? && r.value.Some? ==> faults == old(faults))
      ensures r.Success? && r.value.Some? ==> Owners(rows, userId) == {r.value.value}
      ensures r.Success? && r.value.None? ==> faults > old(faults) || Owners(rows, userId) == {}
      ensures r.Failure? ==> faults > old(faults) || userId == "" || |Owners(rows, userId)| > 1
      ensures userId == "" ==> r.Failure?
    {
      if userId == "" {
        return Failure("user_id required");
      }
      var readable, partial := *, *;
      if !readable {
        faults := faults + 1;
        return if partial then Failure("not readable") else Success(None);
      }
      var keys := set k <- rows | rows[k].userId == userId;
      if keys == {} {
        return Success(None);
      }
      if |keys| > 1 {
        return Failure("expected 0 or 1 user(s)");
      }
      var key := MapOrder.Next(keys);
      OnlyMember(keys, key);
      return Success(Some(key));
    }

    /** What the service does on behalf of an administrator: the points of the one user with the given id
        change by `amount`. When an error is reported they may have changed as well. */
    method AdjustVantagePoints(userId: string, amount: int) returns (ok: bool, ghost paidBy: Option<string>)
      requires Solvent(rows) && InRange(amount)
      modifies this
      ensures Solvent(rows)
      ensures ok ==> paidBy.Some?
      ensures paidBy.None? ==> rows == old(rows)
      ensures paidBy.Some? ==>
                && paidBy.value in old(rows) && Owners(old(rows), userId) == {paidBy.value}
                && var row := old(rows)[paidBy.value];
                0 <= row.balance + amount && rows == old(rows)[paidBy.value := row.(balance := row.balance + amount)]
      ensures paidBy.Some? ==> CanBeCharged(old(rows), userId, amount)
      ensures old(faults) <= faults && (ok ==> faults == old(faults)) && (!ok && paidBy.Some? ==> faults > old(faults))
      ensures !ok ==> faults > old(faults) || !CanBeCharged(old(rows), userId, amount)
    {
      var authorized := *;
      if !authorized {
        faults := faults + 1;
        return false, None;
      }
      var found := FetchByUserId(userId);
      if found.Failure? || found.value.None? {
        return false, None;
      }
      var key := found.value.value;
      assert key in Owners(rows, userId);
      ghost var stored;
      ok, stored := PutLolUser(key, rows[key], amount, false, None);
      paidBy := if stored then Some(key) else None;
    }
  }

  lemma OnlyMember<T>(s: set<T>, x: T)
    requires x in s && |s| <= 1
    ensures s == {x}
  {
    assert |s - {x}| == 0;
  }
}
