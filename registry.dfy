/**
 * The `users` table: `user_id INTEGER PRIMARY KEY` with username, first and
 * last name and `join_date`. Rows are written by `save_user` with
 * `INSERT OR REPLACE`, counted by `panel`, scanned by the broadcast and by
 * `show_users`. Because `user_id` is the rowid, a plain `SELECT ... FROM
 * users` scans the table in ascending `user_id` order; the class keeps that
 * order in `ids`.
 */
module Registry {
  import opened Wrappers
  import opened Text
  import opened Transport

  /** `datetime.now()` at the time of the write, kept opaque. */
  type Timestamp = string

  datatype UserRow = UserRow(username: Option<string>, firstName: string, lastName: Option<string>, joinDate: Timestamp)

  predicate StrictlyIncreasing(s: seq<int>)
  {
    forall i, j :: 0 <= i < j < |s| ==> s[i] < s[j]
  }

  /** Puts a new key into an ascending sequence of keys at its place. */
  function InsertSorted(s: seq<int>, x: int): (r: seq<int>)
    requires StrictlyIncreasing(s) && x !in s
    ensures StrictlyIncreasing(r)
    ensures |r| == |s| + 1
    ensures forall y :: y in r <==> y in s || y == x
  {
    if s == [] || x < s[0] then [x] + s
    else
      var t := InsertSorted(s[1..], x);
      assert forall y :: y in s[1..] ==> s[0] < y;
      assert forall j :: 0 <= j < |t| ==> t[j] in t;
      [s[0]] + t
  }

  /** Distinct keys: as many as the set they form. */
  lemma {:induction false} DistinctCard(s: seq<int>)
    requires StrictlyIncreasing(s)
    ensures |set y | y in s| == |s|
  {
    if s != [] {
      DistinctCard(s[1..]);
      assert (set y | y in s) == {s[0]} + (set y | y in s[1..]);
      assert s[0] !in s[1..];
    }
  }

  /** Python's f-string rendering of a column that may hold NULL (`None`). */
  function Shown(v: Option<string>): string
  {
    match v
    case None => "None"
    case Some(t) => t
  }

  const ListHeader := "لیست کاربران:\n\n"
  const NoUsersText := "هیچ کاربری وجود ندارد."

  /**
   * A NULL column and the text "None" print alike: the list cannot tell a
   * user without a last name from one whose last name is "None".
   */
  lemma NullShownAsNone(id: int, row: UserRow)
    requires row.lastName.None?
    ensures UserLine(id, row) == UserLine(id, row.(lastName := Some("None")))
  {
  }

  /** One line of `show_users`: `📌 @username - first last (ID: id)`. */
  function UserLine(id: int, row: UserRow): (r: string)
    ensures |r| > 0 && r[0] == '📌' && r[|r| - 1] == '\n'
  {
    "📌 @" + Shown(row.username) + " - " + row.firstName + " " + Shown(row.lastName)
      + " (ID: " + Decimal(id) + ")\n"
  }

  /** The lines for the given keys, in the given order. */
  function UserLines(ids: seq<int>, rows: map<int, UserRow>): (r: string)
    requires forall id :: id in ids ==> id in rows
    ensures |r| >= |ids|
  {
    if ids == [] then ""
    else UserLines(ids[..|ids| - 1], rows) + UserLine(ids[|ids| - 1], rows[ids[|ids| - 1]])
  }

  lemma AppendAssoc(a: string, b: string, c: string)
    ensures (a + b) + c == a + (b + c)
  {
  }

  lemma UserLinesSnoc(ids: seq<int>, i: nat, rows: map<int, UserRow>)
    requires i < |ids| && forall id :: id in ids ==> id in rows
    ensures UserLines(ids[..i + 1], rows) == UserLines(ids[..i], rows) + UserLine(ids[i], rows[ids[i]])
  {
    assert ids[..i + 1][..i] == ids[..i];
  }

  /**
   * The text `show_users` replies with for a table scanned in the order
   * `ids`: the fallback text exactly when there are no users, the header
   * followed by the lines otherwise.
   */
  function UserListText(ids: seq<int>, rows: map<int, UserRow>): (r: string)
    requires forall id :: id in ids ==> id in rows
    ensures r == NoUsersText <==> ids == []
    ensures ids != [] ==> |r| > |ListHeader| && r[..|ListHeader|] == ListHeader
  {
    if ids == [] then NoUsersText else ListHeader + UserLines(ids, rows)
  }


  /** The attempts the broadcast makes: one send of `message` to each key, in order. */
  function BroadcastSends(ids: seq<int>, message: string): (r: seq<Action>)
    ensures |r| == |ids|
    ensures forall i :: 0 <= i < |ids| ==> r[i] == Send(ById(ids[i]), message)
  {
    if ids == [] then []
    else BroadcastSends(ids[..|ids| - 1], message) + [Send(ById(ids[|ids| - 1]), message)]
  }

  /** The keys whose send succeeded, in order, given one outcome per attempt. */
  function Delivered(ids: seq<int>, ok: seq<bool>): (r: seq<int>)
    requires |ok| == |ids|
    ensures forall y :: y in r <==> exists i :: 0 <= i < |ids| && ids[i] == y && ok[i]
  {
    if ids == [] then []
    else
      var n := |ids| - 1;
      var rest := Delivered(ids[..n], ok[..n]);
      assert forall i :: 0 <= i < n ==> ids[..n][i] == ids[i] && ok[..n][i] == ok[i];
      if ok[n] then rest + [ids[n]] else rest
  }

  /** Five users, the third send fails: five attempts, four users reached. */
  lemma BroadcastPartialFailure(a: int, b: int, c: int, d: int, e: int, message: string)
    ensures |BroadcastSends([a, b, c, d, e], message)| == 5
    ensures Delivered([a, b, c, d, e], [true, true, false, true, true]) == [a, b, d, e]
  {
    assert [a, b, c, d, e][..4] == [a, b, c, d] && [true, true, false, true, true][..4] == [true, true, false, true];
    assert [a, b, c, d][..3] == [a, b, c] && [true, true, false, true][..3] == [true, true, false];
    assert [a, b, c][..2] == [a, b] && [true, true, false][..2] == [true, true];
    assert [a, b][..1] == [a] && [true, true][..1] == [true];
    assert Delivered([a], [true]) == [a];
    assert Delivered([a, b], [true, true]) == [a, b];
    assert Delivered([a, b, c], [true, true, false]) == [a, b];
    assert Delivered([a, b, c, d], [true, true, false, true]) == [a, b, d];
  }

  class UserTable {
    var rows: map<int, UserRow>
    /** The keys of `rows` in the order a table scan returns them. */
    var ids: seq<int>

    ghost predicate Valid()
      reads this
    {
      StrictlyIncreasing(ids) && forall id :: id in rows <==> id in ids
    }

    /** The empty table that `setup_database` creates on first start. */
    constructor ()
      ensures Valid() && rows == map[] && ids == []
    {
      rows := map[];
      ids := [];
    }

    /** `SELECT COUNT(*) FROM users`: the number of rows, which is the number a scan returns. */
    function Count(): (n: nat)
      reads this
      requires Valid()
      ensures n == |ids|
    {
      assert forall y :: y in rows.Keys <==> y in ids;
      assert rows.Keys == set y | y in ids;
      DistinctCard(ids);
      |rows|
    }

    /**
     * `save_user`: `INSERT OR REPLACE` keyed by `user_id`. The row is
     * replaced whole (including `join_date`, which becomes `now`); no other
     * row changes; a new key takes its place in the scan order.
     */
    method Save(id: int, username: Option<string>, firstName: string, lastName: Option<string>, now: Timestamp)
      requires Valid()
      modifies this
      ensures Valid()
      ensures rows == old(rows)[id := UserRow(username, firstName, lastName, now)]
      ensures id in rows && rows[id] == UserRow(username, firstName, lastName, now)
      ensures forall k :: k != id ==> (k in rows <==> k in old(rows)) && (k in rows ==> rows[k] == old(rows)[k])
      ensures |rows| == if id in old(rows) then old(|rows|) else old(|rows|) + 1
      ensures ids == if id in old(rows) then old(ids) else InsertSorted(old(ids), id)
    {
      if id !in rows {
        ids := InsertSorted(ids, id);
      }
      rows := rows[id := UserRow(username, firstName, lastName, now)];
    }

    /**
     * The loop of `handle_broadcast_message`: one send per scanned row, a
     * failed send (`ok[i]` false) skipped with `continue`. Returns the
     * attempts made and the keys that were reached.
     */
    method Broadcast(message: string, ok: seq<bool>) returns (attempts: seq<Action>, reached: seq<int>)
      requires Valid() && |ok| == |ids|
      ensures attempts == BroadcastSends(ids, message)
      ensures reached == Delivered(ids, ok)
    {
      attempts, reached := [], [];
      for i := 0 to |ids|
        invariant attempts == BroadcastSends(ids[..i], message)
        invariant reached == Delivered(ids[..i], ok[..i])
      {
        assert ids[..i + 1][..i] == ids[..i] && ok[..i + 1][..i] == ok[..i];
        attempts := attempts + [Send(ById(ids[i]), message)];
        if ok[i] {
          reached := reached + [ids[i]];
        }
      }
      assert ids[..|ids|] == ids && ok[..|ok|] == ok;
    }

    /** The loop of `show_users`: header, one line per scanned row, and the fallback for an empty table. */
    method ListText() returns (text: string)
      requires Valid()
      ensures text == UserListText(ids, rows)
      ensures text == NoUsersText <==> |rows| == 0
    {
      text := ListHeader;
      for i := 0 to |ids|
        invariant text == ListHeader + UserLines(ids[..i], rows)
      {
        var line := UserLine(ids[i], rows[ids[i]]);
        UserLinesSnoc(ids, i, rows);
        AppendAssoc(ListHeader, UserLines(ids[..i], rows), line);
        text := text + line;
      }
      assert ids[..|ids|] == ids;
      assert text == ListHeader <==> ids == [] by {
        assert |text| == |ListHeader| + |UserLines(ids, rows)|;
      }
      if text == ListHeader {
        text := NoUsersText;
      }
      assert Count() == |ids|;
    }
  }
}
