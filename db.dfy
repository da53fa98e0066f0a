/**
 * db.py: the `users` and `blocked_users` tables of the bot's SQLite database.
 * A table is a field the operations reassign; SQL statements become the updates they make.
 * `users` keeps the scan order of its rows (a REPLACE deletes the old row and appends the new one),
 * `blocked_users` is keyed by user id. The wall clock and bcrypt's random salt are parameters.
 */
module Db {
  import opened Wrappers
  import opened Text
  import opened Numbers

  /**
   * A bcrypt digest, as `hashpw` produces it: the salt drawn by `gensalt()` and the secret
   * it was computed from. bcrypt's internals are not modelled; `checkpw` succeeds exactly
   * for the secret the digest was made from.
   */
  datatype Digest = Digest(salt: nat, secret: string)

  /** `bcrypt.hashpw(secret, salt)`. */
  function Hashpw(secret: string, salt: nat): (d: Digest)
    ensures Checkpw(secret, d)
    ensures forall other :: Checkpw(other, d) ==> other == secret
  {
    Digest(salt, secret)
  }

  /** `bcrypt.checkpw(secret, digest)`. */
  predicate Checkpw(secret: string, d: Digest) {
    d.secret == secret
  }

  /**
   * The text stored in the `number` column: bcrypt's modular-crypt string, "$2b$", the cost,
   * then salt and hash. Only its "$2b$" prefix matters here; the rest is a stand-in.
   */
  function DigestText(d: Digest): (r: string)
    ensures StartsWith(r, "$2b$")
  {
    "$2b$12$" + NatToString(d.salt)
  }

  /** One row of `users`. `telegram_id` is the key; `subscription_active` defaults to 0. */
  datatype UserRow = UserRow(id: int, number: Digest, fullName: string, role: string, authTime: int, subscribed: bool)

  function Ids(rows: seq<UserRow>): set<int> {
    set r | r in rows :: r.id
  }

  /** `telegram_id` is the primary key: no row shares its id with an earlier one. */
  ghost predicate UniqueIds(rows: seq<UserRow>) {
    rows == [] || (UniqueIds(rows[..|rows| - 1]) && rows[|rows| - 1].id !in Ids(rows[..|rows| - 1]))
  }

  lemma IdsSnoc(rows: seq<UserRow>, x: UserRow)
    ensures Ids(rows + [x]) == Ids(rows) + {x.id}
  {
    assert forall row :: row in rows + [x] <==> row in rows || row == x;
  }

  /** The ids of a non-empty table: those of all its rows but the last, and the last one's. */
  lemma IdsInit(rows: seq<UserRow>)
    requires rows != []
    ensures Ids(rows) == Ids(rows[..|rows| - 1]) + {rows[|rows| - 1].id}
  {
    assert rows == rows[..|rows| - 1] + [rows[|rows| - 1]];
    IdsSnoc(rows[..|rows| - 1], rows[|rows| - 1]);
  }

  lemma UniqueAppend(rows: seq<UserRow>, x: UserRow)
    requires UniqueIds(rows)
    requires x.id !in Ids(rows)
    ensures UniqueIds(rows + [x])
  {
    assert (rows + [x])[..|rows|] == rows;
  }

  /** `DELETE FROM users WHERE telegram_id = ?`: every row but `id`'s, in order. */
  function Without(rows: seq<UserRow>, id: int): (r: seq<UserRow>)
    ensures |r| <= |rows|
  {
    if rows == [] then []
    else
      var last := rows[|rows| - 1];
      Without(rows[..|rows| - 1], id) + (if last.id == id then [] else [last])
  }

  /** The rows left are exactly the rows of other users. */
  lemma {:induction false} WithoutMembers(rows: seq<UserRow>, id: int)
    ensures forall row :: row in Without(rows, id) <==> row in rows && row.id != id
  {
    if rows != [] {
      var last := rows[|rows| - 1];
      WithoutMembers(rows[..|rows| - 1], id);
      assert forall row :: row in rows <==> row in rows[..|rows| - 1] || row == last by {
        assert rows == rows[..|rows| - 1] + [last];
      }
    }
  }

  lemma IdsWithout(rows: seq<UserRow>, id: int)
    ensures Ids(Without(rows, id)) == Ids(rows) - {id}
  {
    var r := Without(rows, id);
    WithoutMembers(rows, id);
    forall x | x in Ids(rows) - {id} ensures x in Ids(r) {
      var row :| row in rows && row.id == x;
      assert row in r;
    }
  }

  lemma {:induction false} WithoutAbsent(rows: seq<UserRow>, id: int)
    requires id !in Ids(rows)
    ensures Without(rows, id) == rows
  {
    if rows != [] {
      IdsInit(rows);
      WithoutAbsent(rows[..|rows| - 1], id);
      InitLast(rows);
    }
  }

  lemma {:induction false} WithoutAppend(a: seq<UserRow>, b: seq<UserRow>, id: int)
    ensures Without(a + b, id) == Without(a, id) + Without(b, id)
  {
    if b == [] {
      assert a + b == a;
    } else {
      WithoutAppend(a, b[..|b| - 1], id);
      assert (a + b)[..|a + b| - 1] == a + b[..|b| - 1];
    }
  }

  lemma {:induction false} WithoutKeepsUnique(rows: seq<UserRow>, id: int)
    requires UniqueIds(rows)
    ensures UniqueIds(Without(rows, id))
  {
    if rows != [] {
      var init, last := rows[..|rows| - 1], rows[|rows| - 1];
      WithoutKeepsUnique(init, id);
      assert Without(rows, id) == Without(init, id) + (if last.id == id then [] else [last]);
      if last.id == id {
        assert Without(rows, id) == Without(init, id);
      } else {
        IdsWithout(init, id);
        UniqueAppend(Without(init, id), last);
      }
    }
  }

  /** The test a startup sweep applies to a row's `number` column. */
  datatype RevokeTest =
    | CompareText  // `number in authorized_numbers`, as db.py:70 writes it
    | CheckHash    // `checkpw(n, number)` for some authorized `n`

  predicate Kept(test: RevokeTest, authorized: set<string>, d: Digest) {
    match test
    case CompareText => DigestText(d) in authorized
    case CheckHash => exists n :: n in authorized && Checkpw(n, d)
  }

  /** The rows a sweep keeps, in scan order. */
  function KeptRows(rows: seq<UserRow>, test: RevokeTest, authorized: set<string>): (r: seq<UserRow>)
    ensures |r| <= |rows|
  {
    if rows == [] then []
    else
      var last := rows[|rows| - 1];
      KeptRows(rows[..|rows| - 1], test, authorized) + (if Kept(test, authorized, last.number) then [last] else [])
  }

  /** A sweep keeps exactly the rows that pass its test. */
  lemma {:induction false} KeptRowsMembers(rows: seq<UserRow>, test: RevokeTest, authorized: set<string>)
    ensures forall row :: row in KeptRows(rows, test, authorized) <==> row in rows && Kept(test, authorized, row.number)
  {
    if rows != [] {
      var last := rows[|rows| - 1];
      KeptRowsMembers(rows[..|rows| - 1], test, authorized);
      assert forall row :: row in rows <==> row in rows[..|rows| - 1] || row == last by {
        assert rows == rows[..|rows| - 1] + [last];
      }
    }
  }

  /** The `(telegram_id, number)` pairs a sweep deletes, in scan order. */
  function RevokedPairs(rows: seq<UserRow>, test: RevokeTest, authorized: set<string>): (r: seq<(int, string)>)
    ensures |r| + |KeptRows(rows, test, authorized)| == |rows|
  {
    if rows == [] then []
    else
      var last := rows[|rows| - 1];
      RevokedPairs(rows[..|rows| - 1], test, authorized)
        + (if Kept(test, authorized, last.number) then [] else [(last.id, DigestText(last.number))])
  }

  /**
   * As written, the sweep compares the stored bcrypt text with the plaintext numbers; when no
   * authorized number looks like a bcrypt string, it keeps no row at all.
   */
  lemma {:induction false} TextSweepKeepsNothing(rows: seq<UserRow>, authorized: set<string>)
    requires forall n :: n in authorized ==> !StartsWith(n, "$2b$")
    ensures KeptRows(rows, CompareText, authorized) == []
    ensures |RevokedPairs(rows, CompareText, authorized)| == |rows|
  {
    if rows != [] {
      TextSweepKeepsNothing(rows[..|rows| - 1], authorized);
    }
  }

  /** The checked sweep keeps exactly the rows whose number was hashed from an authorized number. */
  lemma HashSweepKeepsAuthorized(rows: seq<UserRow>, authorized: set<string>, row: UserRow)
    ensures row in KeptRows(rows, CheckHash, authorized) <==> row in rows && row.number.secret in authorized
  {
    KeptRowsMembers(rows, CheckHash, authorized);
    if row.number.secret in authorized {
      assert Checkpw(row.number.secret, row.number);
    }
  }

  lemma {:induction false} KeptRowsSubset(rows: seq<UserRow>, test: RevokeTest, authorized: set<string>)
    requires UniqueIds(rows)
    ensures UniqueIds(KeptRows(rows, test, authorized))
  {
    if rows != [] {
      var init := rows[..|rows| - 1];
      var last := rows[|rows| - 1];
      KeptRowsSubset(init, test, authorized);
      var k := KeptRows(init, test, authorized);
      if !Kept(test, authorized, last.number) {
        assert KeptRows(rows, test, authorized) == k;
      } else {
        IdNotElsewhere(rows, |rows| - 1);
        KeptIdsWithin(init, test, authorized, last.id);
        UniqueAppend(k, last);
      }
    }
  }

  /** Keeping every row whose expiry is after `now`: `DELETE FROM blocked_users WHERE unblock_time <= now`. */
  function Unexpired(blocked: map<int, int>, now: int): (r: map<int, int>)
    ensures forall u :: u in r <==> u in blocked && blocked[u] > now
    ensures forall u :: u in r ==> r[u] == blocked[u]
  {
    map u | u in blocked && blocked[u] > now :: blocked[u]
  }

  /** Sweeping at an earlier time and then at a later one is the same as sweeping once at the later one. */
  lemma UnexpiredLater(blocked: map<int, int>, earlier: int, later: int)
    requires earlier <= later
    ensures Unexpired(Unexpired(blocked, earlier), later) == Unexpired(blocked, later)
  {
  }

  class Database {
    var users: seq<UserRow>
    var blocked: map<int, int>

    ghost predicate Valid()
      reads this
    {
      UniqueIds(users)
    }

    /** `init_db()` on a fresh file: both tables empty. */
    constructor()
      ensures Valid() && users == [] && blocked == map[]
    {
      users := [];
      blocked := map[];
    }

    /** `is_authorized(id)`: a row exists for `id`. */
    predicate IsAuthorized(id: int)
      reads this
    {
      id in Ids(users)
    }

    /** `get_user_number(id)`: the stored digest of `id`'s row, or `None`. */
    function GetUserNumber(id: int): (r: Option<Digest>)
      reads this
      ensures r.Some? <==> IsAuthorized(id)
      ensures r.Some? ==> exists row :: row in users && row.id == id && row.number == r.value
    {
      FirstNumber(users, id)
    }

    /** `is_blocked(id)`: a record exists, whether or not its time has passed. */
    predicate IsBlocked(id: int)
      reads this
    {
      id in blocked
    }

    /**
     * `add_user`: REPLACE INTO users. The old row of `id`, if any, is deleted and a new one
     * appended with the hashed number, the time, and subscription reset to its default.
     */
    method AddUser(id: int, number: string, fullName: string, role: string, salt: nat, now: int)
      requires Valid()
      modifies this
      ensures Valid()
      ensures users == Without(old(users), id) + [UserRow(id, Hashpw(number, salt), fullName, role, now, false)]
      ensures blocked == old(blocked)
      ensures IsAuthorized(id)
      ensures GetUserNumber(id).Some? && Checkpw(number, GetUserNumber(id).value)
      ensures Ids(users) == old(Ids(users)) + {id}
    {
      var row := UserRow(id, Hashpw(number, salt), fullName, role, now, false);
      WithoutKeepsUnique(users, id);
      IdsWithout(users, id);
      UniqueAppend(Without(users, id), row);
      IdsSnoc(Without(users, id), row);
      users := Without(users, id) + [row];
      assert row in users;
    }

    /** `remove_user`: deletes `id`'s row, if any. */
    method RemoveUser(id: int)
      requires Valid()
      modifies this
      ensures Valid()
      ensures users == Without(old(users), id)
      ensures blocked == old(blocked)
      ensures !IsAuthorized(id)
      ensures Ids(users) == old(Ids(users)) - {id}
    {
      WithoutKeepsUnique(users, id);
      IdsWithout(users, id);
      users := Without(users, id);
    }

    /** `set_subscription(id, active)`: UPDATE of `id`'s row only; nothing happens when it has none. */
    method SetSubscription(id: int, active: bool)
      requires Valid()
      modifies this
      ensures Valid()
      ensures users == Resubscribed(old(users), id, active)
      ensures blocked == old(blocked)
      ensures Ids(users) == old(Ids(users))
      ensures IsAuthorized(id) ==> (SubscriptionActive(id) <==> active)
    {
      ResubscribedKeepsIds(users, id, active);
      ResubscribedKeepsUnique(users, id, active);
      ResubscribedSets(users, id, active);
      users := Resubscribed(users, id, active);
    }

    /** The `subscription_active` column of `id`'s row is set. */
    predicate SubscriptionActive(id: int)
      reads this
    {
      exists row :: row in users && row.id == id && row.subscribed
    }

    /** `is_number_taken(n)`: some row's digest was made from `n`. */
    method IsNumberTaken(n: string) returns (taken: bool)
      ensures taken <==> exists row :: row in users && Checkpw(n, row.number)
    {
      var rows := users;
      var i := 0;
      while i < |rows|
        invariant 0 <= i <= |rows|
        invariant forall k :: 0 <= k < i ==> !Checkpw(n, rows[k].number)
      {
        if Checkpw(n, rows[i].number) {
          return true;
        }
        i := i + 1;
      }
      return false;
    }

    /** `is_same_user(id, n)`: the row whose digest was made from `n` belongs to `id`. */
    method IsSameUser(id: int, n: string) returns (same: bool)
      ensures same <==> exists row :: row in users && Checkpw(n, row.number) && row.id == id
      ensures same ==> IsAuthorized(id)
    {
      var rows := users;
      var i := 0;
      while i < |rows|
        invariant 0 <= i <= |rows|
        invariant forall k :: 0 <= k < i ==> !(Checkpw(n, rows[k].number) && rows[k].id == id)
      {
        if Checkpw(n, rows[i].number) && IntToString(rows[i].id) == IntToString(id) {
          IntToStringInjective(rows[i].id, id);
          return true;
        }
        i := i + 1;
      }
      return false;
    }

    /** The loop of a startup sweep: each row that fails `test` is deleted and reported. */
    method DeleteRows(authorized: set<string>, test: RevokeTest) returns (removed: seq<(int, string)>)
      requires Valid()
      modifies this
      ensures Valid()
      ensures users == KeptRows(old(users), test, authorized)
      ensures removed == RevokedPairs(old(users), test, authorized)
      ensures blocked == old(blocked)
    {
      var table;
      table, removed := Sweep(users, test, authorized);
      KeptRowsSubset(users, test, authorized);
      users := table;
    }

    /**
     * `remove_revoked_users(authorized)` as written: it deletes the rows whose stored `number`
     * text is not in `authorized` and returns their `(telegram_id, number)` pairs in scan order.
     */
    method RemoveRevokedUsers(authorized: set<string>) returns (removed: seq<(int, string)>)
      requires Valid()
      modifies this
      ensures Valid()
      ensures users == KeptRows(old(users), CompareText, authorized)
      ensures removed == RevokedPairs(old(users), CompareText, authorized)
      ensures forall row :: row in users ==> DigestText(row.number) in authorized
      ensures blocked == old(blocked)
    {
      removed := DeleteRows(authorized, CompareText);
      KeptRowsMembers(old(users), CompareText, authorized);
    }

    /** The sweep as intended: a row stays exactly when its digest matches an authorized number. */
    method RemoveRevokedUsersChecked(authorized: set<string>) returns (removed: seq<(int, string)>)
      requires Valid()
      modifies this
      ensures Valid()
      ensures users == KeptRows(old(users), CheckHash, authorized)
      ensures removed == RevokedPairs(old(users), CheckHash, authorized)
      ensures forall row :: row in users ==> exists n :: n in authorized && Checkpw(n, row.number)
      ensures blocked == old(blocked)
    {
      removed := DeleteRows(authorized, CheckHash);
      KeptRowsMembers(old(users), CheckHash, authorized);
    }

    /** `add_block(id, t)`: INSERT OR REPLACE; exactly one record for `id`, holding `t`. */
    method AddBlock(id: int, unblockTime: int)
      modifies this
      ensures blocked == old(blocked)[id := unblockTime]
      ensures users == old(users)
    {
      blocked := blocked[id := unblockTime];
    }

    /** `remove_block(id)`: deletes `id`'s record only; nothing happens when it has none. */
    method RemoveBlock(id: int)
      modifies this
      ensures blocked == old(blocked) - {id}
      ensures id !in old(blocked) ==> blocked == old(blocked)
      ensures users == old(users)
    {
      blocked := blocked - {id};
    }

    /** `remove_expired_blocks()` at time `now`: deletes exactly the records with `unblock_time <= now`. */
    method RemoveExpiredBlocks(now: int)
      modifies this
      ensures blocked == Unexpired(old(blocked), now)
      ensures users == old(users)
    {
      blocked := Unexpired(blocked, now);
    }

    /** `clear_blocks()`: empties the table. */
    method ClearBlocks()
      modifies this
      ensures blocked == map[]
      ensures users == old(users)
    {
      blocked := map[];
    }
  }

  /** The table after `UPDATE users SET subscription_active = ? WHERE telegram_id = ?`. */
  function Resubscribed(rows: seq<UserRow>, id: int, active: bool): (r: seq<UserRow>)
    ensures |r| == |rows|
  {
    if rows == [] then []
    else
      var last := rows[|rows| - 1];
      Resubscribed(rows[..|rows| - 1], id, active) + [if last.id == id then last.(subscribed := active) else last]
  }

  /** The update changes no id. */
  lemma {:induction false} ResubscribedKeepsIds(rows: seq<UserRow>, id: int, active: bool)
    ensures Ids(Resubscribed(rows, id, active)) == Ids(rows)
  {
    if rows != [] {
      var init, last := rows[..|rows| - 1], rows[|rows| - 1];
      ResubscribedKeepsIds(init, id, active);
      IdsInit(rows);
      IdsSnoc(Resubscribed(init, id, active), if last.id == id then last.(subscribed := active) else last);
    }
  }

  lemma {:induction false} ResubscribedKeepsUnique(rows: seq<UserRow>, id: int, active: bool)
    requires UniqueIds(rows)
    ensures UniqueIds(Resubscribed(rows, id, active))
  {
    if rows != [] {
      var init, last := rows[..|rows| - 1], rows[|rows| - 1];
      var x := if last.id == id then last.(subscribed := active) else last;
      ResubscribedKeepsUnique(init, id, active);
      ResubscribedKeepsIds(init, id, active);
      UniqueAppend(Resubscribed(init, id, active), x);
    }
  }

  /** Rows of `id` carry the new flag afterwards, every other row is left as it was. */
  lemma {:induction false} ResubscribedSets(rows: seq<UserRow>, id: int, active: bool)
    ensures forall i :: 0 <= i < |rows| ==>
      Resubscribed(rows, id, active)[i] == (if rows[i].id == id then rows[i].(subscribed := active) else rows[i])
  {
    if rows != [] {
      var init := rows[..|rows| - 1];
      ResubscribedSets(init, id, active);
      forall i | 0 <= i < |init| ensures rows[i] == init[i] { }
    }
  }

  /** The digest of the first row for `id`, in scan order. */
  function FirstNumber(rows: seq<UserRow>, id: int): (r: Option<Digest>)
    ensures r.Some? <==> id in Ids(rows)
    ensures r.Some? ==> exists row :: row in rows && row.id == id && row.number == r.value
  {
    if rows == [] then None
    else if rows[0].id == id then Some(rows[0].number)
    else
      assert Ids(rows) == {rows[0].id} + Ids(rows[1..]) by {
        assert forall row :: row in rows <==> row == rows[0] || row in rows[1..];
      }
      FirstNumber(rows[1..], id)
  }

  /**
   * The loop of `remove_revoked_users` over the rows it fetched: each revoked row is deleted
   * from the table and reported. The deletions run in one transaction, committed afterwards.
   */
  method Sweep(rows: seq<UserRow>, test: RevokeTest, authorized: set<string>)
    returns (table: seq<UserRow>, removed: seq<(int, string)>)
    requires UniqueIds(rows)
    ensures table == KeptRows(rows, test, authorized)
    ensures removed == RevokedPairs(rows, test, authorized)
  {
    table := rows;
    removed := [];
    var i := 0;
    while i < |rows|
      invariant 0 <= i <= |rows|
      invariant table == KeptRows(rows[..i], test, authorized) + rows[i..]
      invariant removed == RevokedPairs(rows[..i], test, authorized)
    {
      var row := rows[i];
      var keep := Kept(test, authorized, row.number);
      SweepTurn(rows, i, test, authorized, table, removed);
      if !keep {
        table := Without(table, row.id);
        removed := removed + [(row.id, DigestText(row.number))];
      }
      i := i + 1;
    }
    SliceAll(rows);
  }

  /** One turn of the sweep loop: the `i`th row is deleted and reported, or left alone. */
  lemma SweepTurn(rows: seq<UserRow>, i: int, test: RevokeTest, authorized: set<string>,
                  table: seq<UserRow>, removed: seq<(int, string)>)
    requires UniqueIds(rows) && 0 <= i < |rows|
    requires table == KeptRows(rows[..i], test, authorized) + rows[i..]
    requires removed == RevokedPairs(rows[..i], test, authorized)
    ensures var x := rows[i];
      var keep := Kept(test, authorized, x.number);
      && (if keep then table else Without(table, x.id)) == KeptRows(rows[..i + 1], test, authorized) + rows[i + 1..]
      && removed + (if keep then [] else [(x.id, DigestText(x.number))]) == RevokedPairs(rows[..i + 1], test, authorized)
  {
    var x := rows[i];
    IdNotElsewhere(rows, i);
    SliceAt(rows, i);
    SweepUnfold(rows[..i], test, authorized, x);
    SweepStep(rows[..i], x, rows[i + 1..], test, authorized);
  }

  lemma InitLast<T>(xs: seq<T>)
    requires xs != []
    ensures xs[..|xs| - 1] + [xs[|xs| - 1]] == xs
  {
  }

  lemma SliceAll<T>(xs: seq<T>)
    ensures xs[..|xs|] == xs && xs[|xs|..] == []
  {
  }

  lemma SliceAt<T>(xs: seq<T>, i: int)
    requires 0 <= i < |xs|
    ensures xs[..i + 1] == xs[..i] + [xs[i]]
    ensures xs[i..] == [xs[i]] + xs[i + 1..]
  {
  }

  /** The table before and after the sweep reaches row `x`, whose id occurs nowhere else. */
  lemma SweepStep(done: seq<UserRow>, x: UserRow, rest: seq<UserRow>, test: RevokeTest, authorized: set<string>)
    requires x.id !in Ids(done) && x.id !in Ids(rest)
    ensures var before := KeptRows(done, test, authorized) + ([x] + rest);
      var after := KeptRows(done + [x], test, authorized) + rest;
      if Kept(test, authorized, x.number) then before == after else Without(before, x.id) == after
  {
    SweepUnfold(done, test, authorized, x);
    var kept := KeptRows(done, test, authorized);
    if Kept(test, authorized, x.number) {
      assert KeptRows(done + [x], test, authorized) == kept + [x];
      Regroup(kept, x, rest);
    } else {
      assert KeptRows(done + [x], test, authorized) == kept;
      KeptIdsWithin(done, test, authorized, x.id);
      WithoutRow(kept, x, rest);
    }
  }

  lemma Regroup(kept: seq<UserRow>, x: UserRow, rest: seq<UserRow>)
    ensures kept + ([x] + rest) == (kept + [x]) + rest
  {
  }

  /** Deleting `x` from the table of kept rows, `x` and the rest. */
  lemma WithoutRow(kept: seq<UserRow>, x: UserRow, rest: seq<UserRow>)
    requires x.id !in Ids(kept) && x.id !in Ids(rest)
    ensures Without(kept + ([x] + rest), x.id) == kept + rest
  {
    WithoutSplice(kept, x, rest);
    assert kept + ([x] + rest) == kept + [x] + rest;
  }

  /** A sweep over one more row: the row is kept or reported, after the earlier ones. */
  lemma SweepUnfold(rows: seq<UserRow>, test: RevokeTest, authorized: set<string>, x: UserRow)
    ensures KeptRows(rows + [x], test, authorized)
      == KeptRows(rows, test, authorized) + (if Kept(test, authorized, x.number) then [x] else [])
    ensures RevokedPairs(rows + [x], test, authorized)
      == RevokedPairs(rows, test, authorized) + (if Kept(test, authorized, x.number) then [] else [(x.id, DigestText(x.number))])
  {
    assert (rows + [x])[..|rows|] == rows;
  }

  /** Deleting a row by its id, when no other row has that id, removes just that row. */
  lemma WithoutSplice(before: seq<UserRow>, x: UserRow, after: seq<UserRow>)
    requires x.id !in Ids(before) && x.id !in Ids(after)
    ensures Without(before + [x] + after, x.id) == before + after
  {
    WithoutAppend(before + [x], after, x.id);
    WithoutAppend(before, [x], x.id);
    WithoutAbsent(before, x.id);
    WithoutAbsent(after, x.id);
    assert [x][..0] == [];
    assert Without([x], x.id) == [];
    assert Without(before + [x], x.id) == before;
  }

  lemma KeptIdsWithin(rows: seq<UserRow>, test: RevokeTest, authorized: set<string>, id: int)
    requires id !in Ids(rows)
    ensures id !in Ids(KeptRows(rows, test, authorized))
  {
    KeptRowsMembers(rows, test, authorized);
  }

  /** With unique ids, the `i`th row's id occurs neither before nor after it. */
  lemma {:induction false} IdNotElsewhere(rows: seq<UserRow>, i: int)
    requires UniqueIds(rows) && 0 <= i < |rows|
    ensures rows[i].id !in Ids(rows[..i])
    ensures rows[i].id !in Ids(rows[i + 1..])
  {
    var init, last := rows[..|rows| - 1], rows[|rows| - 1];
    if i == |rows| - 1 {
      assert rows[..i] == init;
      assert rows[i + 1..] == [];
    } else {
      IdNotElsewhere(init, i);
      assert init[..i] == rows[..i];
      assert rows[i + 1..] == init[i + 1..] + [last];
      IdsSnoc(init[i + 1..], last);
      assert rows[i] in init;
    }
  }

  /** `str(a) == str(b)` exactly when `a == b`, which is how `is_same_user` compares ids. */
  lemma IntToStringInjective(a: int, b: int)
    requires IntToString(a) == IntToString(b)
    ensures a == b
  {
    ParseIntToString(a);
    ParseIntToString(b);
  }
}
