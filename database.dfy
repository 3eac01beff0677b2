/** The SQLite database of the event board: the `events` table, the
    `settings` table, and the start-up rule that seeds the default admin
    password. Each method of `Store` stands for one SQL statement the
    server issues, except `Create` (the two `CREATE TABLE` statements on a
    new file) and `Initialize` (the seeding sequence: a lookup, then an
    insert only when no row exists). A statement's `err` argument is the
    error the driver may hand to the statement's callback (`None` when the
    statement succeeds). */
module Database {
  import opened Wrappers

  const DefaultAdminPassword := "admin123"
  const AdminPasswordKey := "admin_password"
  /** What SQLite reports when a second `settings` row is inserted for a key. */
  const DuplicateKeyError := "SQLITE_CONSTRAINT: UNIQUE constraint failed: settings.key"

  /** A row of `events` without its id (the id is the key of the table's map).
      `title` and `link` are NOT NULL, so they are always strings. */
  datatype Row = Row(title: string, link: string, timestamp: int)

  /** A row of `events` as `SELECT *` returns it. */
  datatype Record = Record(id: nat, title: string, link: string, timestamp: int)

  function RecordOf(id: nat, row: Row): Record
  {
    Record(id, row.title, row.link, row.timestamp)
  }

  /** `x` is, field for field, the row of `events` with its id. */
  predicate Matches(events: map<nat, Row>, x: Record)
  {
    x.id in events && events[x.id] == Row(x.title, x.link, x.timestamp)
  }

  predicate NewestFirstOrder(rs: seq<Record>)
  {
    forall i, j :: 0 <= i < j < |rs| ==> rs[i].timestamp >= rs[j].timestamp
  }

  predicate DistinctIds(rs: seq<Record>)
  {
    forall i, j :: 0 <= i < j < |rs| ==> rs[i].id != rs[j].id
  }

  // ---------------------------------------------------------------------
  // `SELECT * FROM events ORDER BY timestamp DESC`

  /** Places `x` in front of the first record that is not newer than it. */
  function InsertByTime(x: Record, rs: seq<Record>): (r: seq<Record>)
    ensures |r| == |rs| + 1
  {
    if rs == [] || x.timestamp >= rs[0].timestamp then [x] + rs
    else [rs[0]] + InsertByTime(x, rs[1..])
  }

  /** The rows with ids 1..n, newest first. SQLite leaves the order of rows
      with equal timestamps open; this definition puts the higher id first. */
  function NewestFirst(events: map<nat, Row>, n: nat): (r: seq<Record>)
    ensures |r| <= n
  {
    if n == 0 then []
    else if n in events then InsertByTime(RecordOf(n, events[n]), NewestFirst(events, n - 1))
    else NewestFirst(events, n - 1)
  }

  lemma {:induction false} InsertByTimeElements(x: Record, rs: seq<Record>)
    ensures multiset(InsertByTime(x, rs)) == multiset(rs) + multiset{x}
  {
    if rs == [] || x.timestamp >= rs[0].timestamp {
    } else {
      InsertByTimeElements(x, rs[1..]);
      assert rs == [rs[0]] + rs[1..];
    }
  }

  lemma InsertByTimeMembers(x: Record, rs: seq<Record>)
    ensures forall y :: y in InsertByTime(x, rs) <==> y in rs || y == x
  {
    InsertByTimeElements(x, rs);
    forall y ensures y in InsertByTime(x, rs) <==> y in rs || y == x {
      assert y in InsertByTime(x, rs) <==> y in multiset(InsertByTime(x, rs));
    }
  }

  lemma ConsKeepsOrder(h: Record, tail: seq<Record>)
    requires NewestFirstOrder(tail)
    requires forall k :: 0 <= k < |tail| ==> h.timestamp >= tail[k].timestamp
    ensures NewestFirstOrder([h] + tail)
  {
    var r := [h] + tail;
    forall i, j | 0 <= i < j < |r| ensures r[i].timestamp >= r[j].timestamp {
      assert r[j] == tail[j - 1];
      if i > 0 {
        assert r[i] == tail[i - 1];
      }
    }
  }

  lemma {:induction false} InsertByTimeKeeps(x: Record, rs: seq<Record>)
    requires NewestFirstOrder(rs)
    ensures NewestFirstOrder(InsertByTime(x, rs))
    ensures multiset(InsertByTime(x, rs)) == multiset(rs) + multiset{x}
  {
    InsertByTimeElements(x, rs);
    if rs == [] || x.timestamp >= rs[0].timestamp {
      ConsKeepsOrder(x, rs);
    } else {
      var tail := InsertByTime(x, rs[1..]);
      InsertByTimeKeeps(x, rs[1..]);
      forall k | 0 <= k < |tail| ensures rs[0].timestamp >= tail[k].timestamp {
        assert tail[k] in multiset(rs[1..]) + multiset{x};
        if tail[k] != x {
          assert tail[k] in rs[1..];
        }
      }
      ConsKeepsOrder(rs[0], tail);
    }
  }

  lemma {:induction false} InsertByTimeDistinct(x: Record, rs: seq<Record>)
    requires NewestFirstOrder(rs) && DistinctIds(rs)
    requires forall y :: y in rs ==> y.id != x.id
    ensures DistinctIds(InsertByTime(x, rs))
  {
    if rs == [] || x.timestamp >= rs[0].timestamp {
    } else {
      InsertByTimeDistinct(x, rs[1..]);
      InsertByTimeKeeps(x, rs[1..]);
      var tail := InsertByTime(x, rs[1..]);
      forall k | 0 <= k < |tail| ensures rs[0].id != tail[k].id {
        assert tail[k] in multiset(rs[1..]) + multiset{x};
        if tail[k] != x {
          assert tail[k] in rs[1..];
        }
      }
    }
  }

  /** The query returns every row with an id in 1..n, each once, as it is
      stored, newest first. */
  lemma {:induction false} NewestFirstCorrect(events: map<nat, Row>, n: nat)
    ensures NewestFirstOrder(NewestFirst(events, n))
    ensures DistinctIds(NewestFirst(events, n))
    ensures forall x :: x in NewestFirst(events, n) <==> 1 <= x.id <= n && Matches(events, x)
  {
    if n > 0 {
      NewestFirstCorrect(events, n - 1);
      var rest := NewestFirst(events, n - 1);
      if n in events {
        var x := RecordOf(n, events[n]);
        InsertByTimeKeeps(x, rest);
        InsertByTimeDistinct(x, rest);
        InsertByTimeMembers(x, rest);
      }
    }
  }

  // ---------------------------------------------------------------------
  // Seeding of the admin password at start-up.

  /** The `settings` table after start-up: the default password is inserted
      only when the table was created, the lookup of `admin_password`
      succeeded and found no row, and the insert succeeded. */
  function Seeded(settings: map<string, string>, createErr: Option<string>,
                  lookupErr: Option<string>, insertErr: Option<string>): (r: map<string, string>)
    ensures r.Keys == settings.Keys || r.Keys == settings.Keys + {AdminPasswordKey}
    ensures forall k :: k in settings ==> k in r && r[k] == settings[k]
  {
    if createErr.None? && lookupErr.None? && AdminPasswordKey !in settings && insertErr.None?
    then settings[AdminPasswordKey := DefaultAdminPassword]
    else settings
  }

  /** When no statement fails, an `admin_password` row exists afterwards;
      when there was none, it holds the default password. */
  lemma SeedingEstablishesPassword(settings: map<string, string>)
    ensures AdminPasswordKey in Seeded(settings, None, None, None)
    ensures AdminPasswordKey !in settings ==>
      Seeded(settings, None, None, None)[AdminPasswordKey] == DefaultAdminPassword
  {
  }

  /** An existing `admin_password` row is never overwritten, whatever
      fails; no other key is ever touched. */
  lemma SeedingKeepsExisting(settings: map<string, string>, createErr: Option<string>,
                             lookupErr: Option<string>, insertErr: Option<string>)
    ensures AdminPasswordKey in settings ==> Seeded(settings, createErr, lookupErr, insertErr) == settings
    ensures forall k :: k != AdminPasswordKey ==>
      (k in Seeded(settings, createErr, lookupErr, insertErr) <==> k in settings)
    ensures forall k :: k != AdminPasswordKey && k in settings ==>
      Seeded(settings, createErr, lookupErr, insertErr)[k] == settings[k]
  {
  }

  /** Starting the server again seeds nothing new. */
  lemma SeedingIdempotent(settings: map<string, string>, createErr: Option<string>,
                          lookupErr: Option<string>, insertErr: Option<string>,
                          createErr': Option<string>, lookupErr': Option<string>, insertErr': Option<string>)
    requires AdminPasswordKey in Seeded(settings, createErr, lookupErr, insertErr)
    ensures var once := Seeded(settings, createErr, lookupErr, insertErr);
            Seeded(once, createErr', lookupErr', insertErr') == once
  {
  }

  // ---------------------------------------------------------------------

  class Store {
    /** `events`: id INTEGER PRIMARY KEY AUTOINCREMENT, title TEXT NOT NULL,
        link TEXT NOT NULL, timestamp DATETIME DEFAULT CURRENT_TIMESTAMP. */
    var events: map<nat, Row>
    /** The largest id AUTOINCREMENT has handed out (SQLite's sqlite_sequence). */
    var lastId: nat
    /** `settings`: key TEXT PRIMARY KEY, value TEXT NOT NULL; a map holds at
        most one value per key. */
    var settings: map<string, string>

    /** Every stored id was handed out by the autoincrement counter. */
    ghost predicate Valid()
      reads this
    {
      forall id :: id in events ==> 1 <= id <= lastId
    }

    /** The stored admin password: `row ? row.value : null`. */
    function AdminPassword(): Option<string>
      reads this
    {
      if AdminPasswordKey in settings then Some(settings[AdminPasswordKey]) else None
    }

    /** A new database file: both tables created empty. */
    constructor Create()
      ensures Valid()
      ensures events == map[] && lastId == 0 && settings == map[]
    {
      events := map[];
      lastId := 0;
      settings := map[];
    }

    /** `SELECT value FROM settings WHERE key = ?` through `db.get`. */
    method GetSetting(key: string, err: Option<string>) returns (r: Result<Option<string>, string>)
      ensures err.Some? ==> r == Failure(err.value)
      ensures err.None? ==> r.Success? && (r.value.Some? <==> key in settings)
      ensures err.None? && key in settings ==> r.value == Some(settings[key])
    {
      if err.Some? {
        return Failure(err.value);
      }
      r := Success(if key in settings then Some(settings[key]) else None);
    }

    /** `INSERT INTO settings (key, value) VALUES (?, ?)`: the primary key
        refuses a second row for the same key. */
    method InsertSetting(key: string, value: string, err: Option<string>) returns (r: Result<(), string>)
      modifies this
      ensures err.Some? ==> r == Failure(err.value)
      ensures err.None? && key in old(settings) ==> r == Failure(DuplicateKeyError)
      ensures r.Success? <==> err.None? && key !in old(settings)
      ensures settings == if r.Success? then old(settings)[key := value] else old(settings)
      ensures events == old(events) && lastId == old(lastId)
    {
      if err.Some? {
        return Failure(err.value);
      }
      if key in settings {
        return Failure(DuplicateKeyError);
      }
      settings := settings[key := value];
      r := Success(());
    }

    /** `UPDATE settings SET value = ? WHERE key = ?`; the result is the
        number of rows changed. */
    method UpdateSetting(key: string, value: string, err: Option<string>) returns (r: Result<nat, string>)
      modifies this
      ensures err.Some? ==> r == Failure(err.value) && settings == old(settings)
      ensures err.None? ==> r == Success(if key in old(settings) then 1 else 0)
      ensures err.None? && key in old(settings) ==> settings == old(settings)[key := value]
      ensures err.None? && key !in old(settings) ==> settings == old(settings)
      ensures events == old(events) && lastId == old(lastId)
    {
      if err.Some? {
        return Failure(err.value);
      }
      if key in settings {
        settings := settings[key := value];
        r := Success(1);
      } else {
        r := Success(0);
      }
    }

    /** `INSERT INTO events (title, link) VALUES (?,?)`: the id comes from
        AUTOINCREMENT and the timestamp is the clock reading `now`; the
        result is `lastID`. */
    method InsertEvent(title: string, link: string, now: int, err: Option<string>) returns (r: Result<nat, string>)
      requires Valid()
      modifies this
      ensures Valid()
      ensures err.Some? ==> r == Failure(err.value) && events == old(events) && lastId == old(lastId)
      ensures err.None? ==> r == Success(old(lastId) + 1) && lastId == old(lastId) + 1
      ensures err.None? ==> events == old(events)[lastId := Row(title, link, now)]
      ensures err.None? ==> forall id :: id in old(events) ==> id < lastId
      ensures lastId >= old(lastId) && settings == old(settings)
    {
      if err.Some? {
        return Failure(err.value);
      }
      lastId := lastId + 1;
      events := events[lastId := Row(title, link, now)];
      r := Success(lastId);
    }

    /** `UPDATE events SET title = COALESCE(?,title), link = COALESCE(?,link)
        WHERE id = ?`. The server only sends present values, so COALESCE
        keeps the new ones; the timestamp is untouched. The result is the
        number of rows changed. */
    method UpdateEvent(id: int, title: string, link: string, err: Option<string>) returns (r: Result<nat, string>)
      requires Valid()
      modifies this
      ensures Valid()
      ensures err.Some? ==> r == Failure(err.value) && events == old(events)
      ensures err.None? ==> r == Success(if id in old(events) then 1 else 0)
      ensures err.None? && id in old(events) ==>
        events == old(events)[id := Row(title, link, old(events)[id].timestamp)]
      ensures err.None? && id !in old(events) ==> events == old(events)
      ensures lastId == old(lastId) && settings == old(settings)
    {
      if err.Some? {
        return Failure(err.value);
      }
      if id in events {
        events := events[id := Row(title, link, events[id].timestamp)];
        r := Success(1);
      } else {
        r := Success(0);
      }
    }

    /** `DELETE FROM events WHERE id = ?`; the result is the number of rows
        removed. The counter is not reset, so a deleted id is never reused. */
    method DeleteEvent(id: int, err: Option<string>) returns (r: Result<nat, string>)
      requires Valid()
      modifies this
      ensures Valid()
      ensures err.Some? ==> r == Failure(err.value) && events == old(events)
      ensures err.None? ==> r == Success(if id in old(events) then 1 else 0)
      ensures err.None? ==> events == old(events) - {id}
      ensures lastId == old(lastId) && settings == old(settings)
    {
      if err.Some? {
        return Failure(err.value);
      }
      r := Success(if id in events then 1 else 0);
      events := events - {id};
    }

    /** `SELECT * FROM events ORDER BY timestamp DESC` through `db.all`. */
    method AllNewestFirst(err: Option<string>) returns (r: Result<seq<Record>, string>)
      requires Valid()
      ensures err.Some? ==> r == Failure(err.value)
      ensures err.None? ==> r.Success?
      ensures r.Success? ==> NewestFirstOrder(r.value) && DistinctIds(r.value)
      ensures r.Success? ==> forall x :: x in r.value <==> Matches(events, x)
    {
      if err.Some? {
        return Failure(err.value);
      }
      NewestFirstCorrect(events, lastId);
      r := Success(NewestFirst(events, lastId));
    }

    /** Start-up (database.js, after opening the file): create the tables if
        they do not exist, then insert the default admin password if no
        `admin_password` row exists. `createErr` is the error of creating
        the settings table, which skips the seeding; errors are only logged. */
    method Initialize(createErr: Option<string>, lookupErr: Option<string>, insertErr: Option<string>)
      requires Valid()
      modifies this
      ensures Valid()
      ensures settings == Seeded(old(settings), createErr, lookupErr, insertErr)
      ensures events == old(events) && lastId == old(lastId)
    {
      if createErr.Some? {
        return;
      }
      var row := GetSetting(AdminPasswordKey, lookupErr);
      if row.Success? && row.value.None? {
        var _ := InsertSetting(AdminPasswordKey, DefaultAdminPassword, insertErr);
      }
    }
  }
}
