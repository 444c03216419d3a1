/**
 * The `refresh_tokens` table (its migration gives the constraints) and the
 * `RefreshToken` model: `isExpired` and `generateToken`, which deletes every
 * row of a user and then inserts one fresh row.
 *
 * Time is an integer number of seconds passed in by the caller; the 64
 * random bytes that `random_bytes(64)` would produce are passed in too.
 */
module RefreshTokens {
  import opened Wrappers

  /** A byte as PHP's `random_bytes` yields it. */
  type Byte = b: int | 0 <= b < 256

  /** `string('token', 500)`: the column is at most 500 characters wide. */
  const TokenMaxLength := 500
  const SecondsPerDay := 24 * 60 * 60
  /** `Carbon::now()->addDays(14)`. */
  const TokenLifetime := 14 * SecondsPerDay
  /** `random_bytes(64)`. */
  const RandomByteCount := 64
  const HexDigits := "0123456789abcdef"

  /** One row of `refresh_tokens`; every column is NOT NULL except the two timestamps, which `create` fills. */
  datatype Row = Row(id: nat, userId: nat, token: string, expiresAt: int, createdAt: int, updatedAt: int)

  /** Why an insert or a schema operation fails. */
  datatype DbError = NoSuchTable | TableExists | ForeignKeyViolation | DuplicateToken | TokenTooLong

  /** `isExpired`: Carbon's `isPast` is a strict comparison with the current time. */
  predicate IsExpired(row: Row, now: int)
  {
    row.expiresAt < now
  }

  // ---------------------------------------------------------------------------
  // bin2hex

  predicate IsLowerHex(c: char)
  {
    '0' <= c <= '9' || 'a' <= c <= 'f'
  }

  /** `bin2hex`: every byte becomes two lower-case hexadecimal digits, high nibble first. */
  function HexEncode(bytes: seq<Byte>): string
  {
    if bytes == [] then []
    else [HexDigits[bytes[0] / 16], HexDigits[bytes[0] % 16]] + HexEncode(bytes[1..])
  }

  /** The value of one lower-case hexadecimal digit, the inverse of indexing `HexDigits`. */
  function HexValue(c: char): (v: Option<nat>)
    ensures v.Some? <==> IsLowerHex(c)
    ensures v.Some? ==> v.value < 16 && HexDigits[v.value] == c
  {
    if '0' <= c <= '9' then Some(c as int - '0' as int)
    else if 'a' <= c <= 'f' then Some(c as int - 'a' as int + 10)
    else None
  }

  /** `hex2bin`, the partner of `HexEncode`: fails on an odd length or a character that is not a lower-case hex digit. */
  function HexDecode(s: string): Option<seq<Byte>>
    decreases |s|
  {
    if s == [] then Some([])
    else if |s| == 1 then None
    else
      var hi, lo, rest := HexValue(s[0]), HexValue(s[1]), HexDecode(s[2..]);
      if hi.Some? && lo.Some? && rest.Some? then Some([hi.value * 16 + lo.value] + rest.value) else None
  }

  /** Reading back the digit of a nibble gives the nibble. */
  lemma HexValueOfDigit(d: nat)
    requires d < 16
    ensures HexValue(HexDigits[d]) == Some(d)
  {
    if d < 10 {
      assert HexDigits[d] as int == '0' as int + d;
    } else {
      assert HexDigits[d] as int == 'a' as int + d - 10;
    }
  }

  /** Decoding two digits in front of the rest decodes their byte in front of the rest's bytes. */
  lemma HexDecodeStep(s: string, hi: nat, lo: nat)
    requires |s| >= 2 && HexValue(s[0]) == Some(hi) && HexValue(s[1]) == Some(lo)
    ensures HexDecode(s) == if HexDecode(s[2..]).Some? then Some([hi * 16 + lo] + HexDecode(s[2..]).value) else None
  {
  }

  lemma {:induction false} HexEncodeShape(bytes: seq<Byte>)
    ensures |HexEncode(bytes)| == 2 * |bytes|
    ensures forall i :: 0 <= i < |HexEncode(bytes)| ==> IsLowerHex(HexEncode(bytes)[i])
  {
    if bytes != [] {
      HexEncodeShape(bytes[1..]);
      var head := [HexDigits[bytes[0] / 16], HexDigits[bytes[0] % 16]];
      assert HexEncode(bytes) == head + HexEncode(bytes[1..]);
      forall i | 0 <= i < |HexEncode(bytes)| ensures IsLowerHex(HexEncode(bytes)[i]) {
        if i >= 2 {
          assert HexEncode(bytes)[i] == HexEncode(bytes[1..])[i - 2];
        }
      }
    }
  }

  lemma {:induction false} HexRoundTrip(bytes: seq<Byte>)
    ensures HexDecode(HexEncode(bytes)) == Some(bytes)
  {
    if bytes != [] {
      var b := bytes[0];
      var s := HexEncode(bytes);
      HexRoundTrip(bytes[1..]);
      HexValueOfDigit(b / 16);
      HexValueOfDigit(b % 16);
      assert s == [HexDigits[b / 16], HexDigits[b % 16]] + HexEncode(bytes[1..]);
      assert s[2..] == HexEncode(bytes[1..]);
      HexDecodeStep(s, b / 16, b % 16);
      assert (b / 16) * 16 + b % 16 == b;
      assert [b] + bytes[1..] == bytes;
    }
  }

  // ---------------------------------------------------------------------------
  // Rows of one user, and the `where('user_id', ...)->delete()` query

  /** The rows whose `user_id` is `u`, in table order. */
  function RowsOf(rows: seq<Row>, u: nat): (r: seq<Row>)

  {
    if rows == [] then []
    else (if rows[0].userId == u then [rows[0]] else []) + RowsOf(rows[1..], u)
  }

  /** `where('user_id', u)->delete()`: the rows that survive, in table order. */
  function DeleteOfUser(rows: seq<Row>, u: nat): (r: seq<Row>)
    ensures forall x :: x in r <==> x in rows && x.userId != u
    ensures |r| <= |rows|
  {
    if rows == [] then []
    else (if rows[0].userId != u then [rows[0]] else []) + DeleteOfUser(rows[1..], u)
  }

  /** The row `generateToken` builds before inserting it. */
  function NewRow(id: nat, u: nat, random: seq<Byte>, now: int): Row
  {
    Row(id, u, HexEncode(random), now + TokenLifetime, now, now)
  }

  // ---------------------------------------------------------------------------
  // The migration's constraints as a table invariant

  /** No two rows share a token (`unique()`) or an id (the primary key). */
  predicate Distinct(rows: seq<Row>)
  {
    rows == [] ||
    ((forall x :: x in rows[1..] ==> x.token != rows[0].token && x.id != rows[0].id) && Distinct(rows[1..]))
  }

  predicate IdsBelow(rows: seq<Row>, nextId: nat)
  {
    forall x :: x in rows ==> x.id < nextId
  }

  /** The token column is `string(500)`; `user_id` is a foreign key into `users`. */
  predicate ColumnsValid(rows: seq<Row>, userIds: set<nat>)
  {
    forall x :: x in rows ==> |x.token| <= TokenMaxLength && x.userId in userIds
  }

  predicate Constraints(rows: seq<Row>, userIds: set<nat>, nextId: nat)
  {
    Distinct(rows) && IdsBelow(rows, nextId) && ColumnsValid(rows, userIds)
  }

  /** Why inserting `row` would fail, if it would: the checks the database makes on insert. */
  function InsertError(rows: seq<Row>, userIds: set<nat>, row: Row): (e: Option<DbError>)
    ensures e.None? <==> row.userId in userIds && |row.token| <= TokenMaxLength && forall x :: x in rows ==> x.token != row.token
  {
    if row.userId !in userIds then Some(ForeignKeyViolation)
    else if |row.token| > TokenMaxLength then Some(TokenTooLong)
    else if exists x :: x in rows && x.token == row.token then Some(DuplicateToken)
    else None
  }

  lemma {:induction false} DeleteKeepsDistinct(rows: seq<Row>, u: nat)
    requires Distinct(rows)
    ensures Distinct(DeleteOfUser(rows, u))
  {
    if rows != [] {
      DeleteKeepsDistinct(rows[1..], u);
      var tail := DeleteOfUser(rows[1..], u);
      if rows[0].userId != u {
        var r := [rows[0]] + tail;
        assert DeleteOfUser(rows, u) == r;
        assert r[1..] == tail;
      } else {
        assert DeleteOfUser(rows, u) == [] + tail;
        assert [] + tail == tail;
      }
    }
  }

  lemma {:induction false} AppendKeepsDistinct(rows: seq<Row>, row: Row)
    requires Distinct(rows)
    requires forall x :: x in rows ==> x.token != row.token && x.id != row.id
    ensures Distinct(rows + [row])
  {
    if rows != [] {
      assert (rows + [row])[1..] == rows[1..] + [row];
      AppendKeepsDistinct(rows[1..], row);
    } else {
      assert [] + [row] == [row];
    }
  }

  lemma DeletePreservesConstraints(rows: seq<Row>, userIds: set<nat>, nextId: nat, u: nat)
    requires Constraints(rows, userIds, nextId)
    ensures Constraints(DeleteOfUser(rows, u), userIds, nextId)
  {
    DeleteKeepsDistinct(rows, u);
  }

  lemma InsertPreservesConstraints(rows: seq<Row>, userIds: set<nat>, nextId: nat, row: Row)
    requires Constraints(rows, userIds, nextId)
    requires InsertError(rows, userIds, row).None?
    requires row.id == nextId
    ensures Constraints(rows + [row], userIds, nextId + 1)
  {
    AppendKeepsDistinct(rows, row);
  }

  // ---------------------------------------------------------------------------
  // Properties of generateToken on the rows

  /** After the delete and the insert of `row` for user `u`, that row is the user's only row. */
  lemma {:induction false} GenerateLeavesOnlyNewRow(rows: seq<Row>, u: nat, row: Row)
    requires row.userId == u
    ensures RowsOf(DeleteOfUser(rows, u) + [row], u) == [row]
  {
    RowsOfAppend(DeleteOfUser(rows, u), [row], u);
    NoRowsOfAfterDelete(rows, u);
    assert RowsOf([row], u) == [row] + RowsOf([], u);
  }

  /** `generateToken(u)` leaves the rows of every other user as they were, in order. */
  lemma {:induction false} GenerateKeepsOtherUsers(rows: seq<Row>, u: nat, v: nat, row: Row)
    requires row.userId == u && v != u
    ensures RowsOf(DeleteOfUser(rows, u) + [row], v) == RowsOf(rows, v)
  {
    RowsOfAppend(DeleteOfUser(rows, u), [row], v);
    assert RowsOf([row], v) == [] + RowsOf([], v);
    RowsOfDeleteOther(rows, u, v);
  }

  /** Calling `generateToken` twice for the same user leaves only the second token for that user. */
  lemma GenerateTwiceKeepsSecond(rows: seq<Row>, u: nat, first: Row, second: Row)
    requires first.userId == u && second.userId == u
    ensures RowsOf(DeleteOfUser(DeleteOfUser(rows, u) + [first], u) + [second], u) == [second]
  {
    GenerateLeavesOnlyNewRow(DeleteOfUser(rows, u) + [first], u, second);
  }

  /** The fresh token is 128 lower-case hex characters, expires 14 days after `now`, and is not expired then. */
  lemma NewRowProperties(id: nat, u: nat, random: seq<Byte>, now: int)
    requires |random| == RandomByteCount
    ensures |NewRow(id, u, random, now).token| == 128 <= TokenMaxLength
    ensures forall i :: 0 <= i < 128 ==> IsLowerHex(NewRow(id, u, random, now).token[i])
    ensures NewRow(id, u, random, now).expiresAt == now + 14 * 86400
    ensures !IsExpired(NewRow(id, u, random, now), now)
    ensures IsExpired(NewRow(id, u, random, now), now + TokenLifetime + 1)
  {
    HexEncodeShape(random);
  }

  lemma {:induction false} RowsOfAppend(a: seq<Row>, b: seq<Row>, u: nat)
    ensures RowsOf(a + b, u) == RowsOf(a, u) + RowsOf(b, u)
  {
    if a != [] {
      assert (a + b)[0] == a[0] && (a + b)[1..] == a[1..] + b;
      RowsOfAppend(a[1..], b, u);
      var h := if a[0].userId == u then [a[0]] else [];
      assert RowsOf(a + b, u) == h + RowsOf(a[1..] + b, u);
      assert RowsOf(a, u) == h + RowsOf(a[1..], u);
      assert h + (RowsOf(a[1..], u) + RowsOf(b, u)) == (h + RowsOf(a[1..], u)) + RowsOf(b, u);
    } else {
      assert a + b == b;
    }
  }

  /** `where('user_id', u)` selects exactly the user's rows. */
  lemma {:induction false} RowsOfMembers(rows: seq<Row>, u: nat)
    ensures forall x :: x in RowsOf(rows, u) <==> x in rows && x.userId == u
  {
    if rows != [] {
      RowsOfMembers(rows[1..], u);
      assert rows == [rows[0]] + rows[1..];
    }
  }

  lemma {:induction false} NoRowsOfAfterDelete(rows: seq<Row>, u: nat)
    ensures RowsOf(DeleteOfUser(rows, u), u) == []
  {
    var d := DeleteOfUser(rows, u);
    RowsOfMembers(d, u);
    if RowsOf(d, u) != [] {
      assert RowsOf(d, u)[0] in RowsOf(d, u);
    }
  }

  lemma {:induction false} RowsOfDeleteOther(rows: seq<Row>, u: nat, v: nat)
    requires u != v
    ensures RowsOf(DeleteOfUser(rows, u), v) == RowsOf(rows, v)
  {
    if rows != [] {
      RowsOfDeleteOther(rows[1..], u, v);
      var h := if rows[0].userId != u then [rows[0]] else [];
      RowsOfAppend(h, DeleteOfUser(rows[1..], u), v);
      if rows[0].userId != u {
        assert RowsOf(h, v) == (if rows[0].userId == v then [rows[0]] else []) + RowsOf([], v);
      }
    }
  }

  // ---------------------------------------------------------------------------
  // The table

  /**
   * The `refresh_tokens` table. `created` says whether the migration has run;
   * `userIds` are the ids present in `users`, the target of the foreign key.
   */
  class RefreshTokenTable {
    var created: bool
    var rows: seq<Row>
    var userIds: set<nat>
    var nextId: nat

    ghost predicate Valid()
      reads this
    {
      (!created ==> rows == []) && Constraints(rows, userIds, nextId)
    }

    /** A database in which the migration has not run yet. */
    constructor (userIds: set<nat>)
      ensures Valid() && !created && rows == [] && this.userIds == userIds
    {
      created := false;
      rows := [];
      this.userIds := userIds;
      nextId := 1;
    }

    /** The migration's `up`: `Schema::create` fails when the table already exists. */
    method Up() returns (r: Option<DbError>)
      requires Valid()
      modifies this
      ensures Valid() && created
      ensures r == (if old(created) then Some(TableExists) else None)
      ensures rows == old(rows) && userIds == old(userIds)
    {
      if created {
        return Some(TableExists);
      }
      created := true;
      rows := [];
      return None;
    }

    /** The migration's `down`: `dropIfExists` removes the table and its rows, and does nothing more when it is gone. */
    method Down()
      requires Valid()
      modifies this
      ensures Valid() && !created && rows == [] && userIds == old(userIds)
    {
      created := false;
      rows := [];
    }

    /** A row is inserted into `users`; only the foreign key target grows. */
    method UserCreated(u: nat)
      requires Valid()
      modifies this
      ensures Valid() && userIds == old(userIds) + {u}
      ensures created == old(created) && rows == old(rows) && nextId == old(nextId)
    {
      userIds := userIds + {u};
    }

    /** A user is deleted: `onDelete('cascade')` deletes all of that user's rows with it. */
    method UserDeleted(u: nat)
      requires Valid()
      modifies this
      ensures Valid() && userIds == old(userIds) - {u}
      ensures rows == DeleteOfUser(old(rows), u) && RowsOf(rows, u) == []
      ensures created == old(created) && nextId == old(nextId)
    {
      DeletePreservesConstraints(rows, userIds, nextId, u);
      NoRowsOfAfterDelete(rows, u);
      rows := DeleteOfUser(rows, u);
      userIds := userIds - {u};
    }

    /**
     * `generateToken(u)`: delete the user's rows, then insert a row holding
     * `bin2hex(random)` that expires 14 days from `now`. The two steps are not
     * in a transaction, so when the insert fails the delete has still happened.
     */
    method GenerateToken(u: nat, random: seq<Byte>, now: int) returns (r: Result<Row, DbError>)
      requires Valid()
      requires |random| == RandomByteCount
      modifies this
      ensures Valid()
      ensures created == old(created) && userIds == old(userIds)
      ensures !old(created) ==> r == Failure(NoSuchTable) && rows == old(rows) && nextId == old(nextId)
      ensures old(created) ==> var kept := DeleteOfUser(old(rows), u);
        var row := NewRow(old(nextId), u, random, now);
        match InsertError(kept, old(userIds), row)
        case None => r == Success(row) && rows == kept + [row] && nextId == old(nextId) + 1
        case Some(e) => r == Failure(e) && rows == kept && nextId == old(nextId)
      ensures r.Success? ==> RowsOf(rows, u) == [r.value] && !IsExpired(r.value, now)
      ensures forall v :: v != u ==> RowsOf(rows, v) == RowsOf(old(rows), v)
    {
      if !created {
        return Failure(NoSuchTable);
      }
      DeletePreservesConstraints(rows, userIds, nextId, u);
      ghost var before := rows;
      rows := DeleteOfUser(rows, u);
      var row := NewRow(nextId, u, random, now);
      NewRowProperties(nextId, u, random, now);
      forall v | v != u ensures RowsOf(rows, v) == RowsOf(before, v) {
        RowsOfDeleteOther(before, u, v);
      }
      var e := InsertError(rows, userIds, row);
      if e.Some? {
        return Failure(e.value);
      }
      InsertPreservesConstraints(rows, userIds, nextId, row);
      GenerateLeavesOnlyNewRow(before, u, row);
      forall v | v != u ensures RowsOf(rows + [row], v) == RowsOf(before, v) {
        GenerateKeepsOtherUsers(before, u, v, row);
      }
      rows := rows + [row];
      nextId := nextId + 1;
      return Success(row);
    }
  }
}
