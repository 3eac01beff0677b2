# Event board: escaping, API rules and store, in Dafny

A model of the small community event board: visitors post an event (a title and a link), everyone can
list the events, and an admin who knows the shared password can edit or delete events and change the
password. The model covers three parts of the code.

- `escape.dfy` covers the admin page's `escapeString`. It is modelled as written, as five global
  `replace` calls in the source's order, and proved equal to a character-by-character escaping. The
  properties are proved about that: no markup character survives, every `&` begins an entity, escaping
  distributes over concatenation, decoding gives the input back, and the output is never shorter.
- `admin_forms.dfy` covers the checks the admin page makes before it prompts or sends a request. Each
  check is proved to agree with the server's rule for the same request.
- `database.dfy` covers the SQLite store as a class, `Database.Store`. It holds the `events` table as a
  map from id to row, the AUTOINCREMENT counter, and the `settings` table as a map from key to value.
  Each method is one SQL statement the server issues, except `Create` (the two `CREATE TABLE`
  statements on a new file) and `Initialize` (the start-up sequence that seeds the default admin
  password: a lookup, then an insert only when no row exists). `ORDER BY timestamp DESC` is an
  insertion-sort function. It is proved to return every row exactly once, as stored, newest first.
- `server.dfy` covers the admin gate as a pure decision function, and every API handler as a method on
  the store. Each method states the response and the new table contents for each branch, in the
  source's order of checks.
- `wrappers.dfy` holds `Option` and `Result`. `js_value.dfy` holds JavaScript truthiness: a field is
  falsy when it is absent or the empty string.

Errors that the SQLite driver reports to a callback are explicit `Option<string>` arguments
(`lookupErr`, `err`, ...): `None` means the statement succeeds. The clock that `CURRENT_TIMESTAMP`
reads is the `now` argument of an insert.

## Model

| member | source | states |
|---|---|---|
| `Escape.EscapeString` | public/admin/admin_script.js:68-76 | a falsy argument (absent, null or the empty string) gives `''` |
| `Escape.ReplaceAll` | public/admin/admin_script.js:71 | one global `replace` of a character by a non-empty entity never shortens the text |
| `Escape.EscapeChain` | public/admin/admin_script.js:70-75 | the five `replace` calls, in the source's order, never shorten the text |
| `Escape.ChainIsCharwise` | public/admin/admin_script.js:70-75 | the five `replace` calls in the source's order act character by character: each of `& < > " '` becomes its entity and every other character is copied |
| `Escape.EscapeStringIsCharwise` | public/admin/admin_script.js:68-76 | `escapeString` equals the per-character escaping of its text |
| `Escape.AmpFirstAvoidsDoubleEscape` | public/admin/admin_script.js:71-72 | replacing `&` after `<` would turn `<` into `&amp;lt;`; with `&` first, `<` becomes `&lt;` |
| `Escape.EscapeStringConcat` | public/admin/admin_script.js:70-75 | escaping `a + b` is escaping `a` followed by escaping `b` |
| `Escape.EscapeTextConcat` | public/admin/admin_script.js:70-75 | the per-character escaping distributes over concatenation |
| `Escape.EscapeStringNoMarkup` | public/admin/admin_script.js:72-75 | the output contains no `<`, `>`, `"` or `'` |
| `Escape.EscapeStringAmps` | public/admin/admin_script.js:71-75 | every `&` in the output begins one of `&amp;`, `&lt;`, `&gt;`, `&quot;`, `&#39;` |
| `Escape.EscapeStringRoundTrip` | public/admin/admin_script.js:67-76 | decoding the five entities in the output gives back the argument (`''` for a falsy argument) |
| `Escape.EscapeTextLength` | public/admin/admin_script.js:70-75 | the escaped text is never shorter, and has the same length exactly when the text holds none of the five characters |
| `Escape.EscapeStringPlain` | public/admin/admin_script.js:70-75 | the output is at least as long as the input, and equals it exactly when the input holds none of the five characters |
| `AdminForms.CheckEdit` | public/admin/admin_script.js:114-117 | the edit stops with a notice before the password prompt exactly when the title or the link is empty, which is when the server's title/link check would answer 400 |
| `AdminForms.CheckPasswordChange` | public/admin/admin_script.js:184-192 | a mismatched confirmation is reported first, then a new password of fewer than 6 characters; the request is sent exactly when the confirmation matches and the server's length check passes |
| `Database.Store.Create` | database.js:28-46 | a new database file holds both tables, empty, with the id counter at 0 |
| `Database.Store.Initialize` | database.js:42-69 | the settings table afterwards is the seeding rule applied to the old one; the events table is untouched |
| `Database.Seeded` | database.js:52-69 | seeding keeps every existing setting as it was and adds at most the `admin_password` key |
| `Database.SeedingEstablishesPassword` | database.js:52-65 | when nothing fails, an `admin_password` row exists afterwards, and if there was none it holds `"admin123"` |
| `Database.SeedingKeepsExisting` | database.js:66-68 | an existing `admin_password` row is never overwritten, whatever fails, and no other key is touched |
| `Database.SeedingIdempotent` | database.js:52-69 | once the row exists, running the seeding again changes nothing |
| `Database.Store.GetSetting` | database.js:53 | the lookup yields the driver's error, or the value of the row with that key, or nothing when no row exists |
| `Database.Store.InsertSetting` | database.js:43-46 | an insert for a key that already has a row is refused, because the key is the primary key, so a key has at most one row; otherwise the row is added |
| `Database.Store.UpdateSetting` | server.js:141 | the row with that key takes the new value and 1 change is reported; with no such row nothing changes and 0 is reported |
| `Database.Store.InsertEvent` | database.js:29-34 | a new row gets id `lastId + 1`, which is above every id ever handed out; the row holds the given title and link and the clock reading; other rows are unchanged |
| `Database.Store.UpdateEvent` | server.js:104-110 | only the row with that id changes, in title and link (its timestamp is kept); a missing id changes nothing; the number of changed rows is returned |
| `Database.Store.DeleteEvent` | server.js:85-86 | only the row with that id is removed; a missing id changes nothing and reports 0 changes; the counter is not reset |
| `Database.Store.AllNewestFirst` | server.js:49-50 | the query returns every row of the table, each exactly once and as stored, in non-increasing timestamp order |
| `Database.NewestFirst` | server.js:49 | the listing of ids 1..n has at most n rows |
| `Database.NewestFirstCorrect` | server.js:49 | the ordered listing of ids 1..n holds exactly the stored rows with those ids, without repeats, newest first |
| `Server.GetAdminPassword` | server.js:9-18 | the callback receives the driver's error, or the stored value, which is null exactly when no `admin_password` row exists |
| `Server.Gate` | server.js:21-39 | a falsy password gives 401 without consulting the store; a lookup error gives 500; otherwise the request goes on exactly when the password equals the stored one, and gets 401 when it does not |
| `Server.GateWithoutStoredPassword` | server.js:16-35 | with no `admin_password` row every request is rejected, and a present password gets 401 |
| `Server.GateOnLookupError` | server.js:28-31 | a lookup error answers 500 to every present password |
| `Server.VerifyAdminPassword` | server.js:21-39 | the middleware makes the decision of `Gate` on the stored password, and reads it only for a truthy password |
| `Server.GetEvents` | server.js:48-60 | a read error answers 400 with its message; otherwise the response is 200 with every row exactly once, newest first |
| `Server.PostEvent` | server.js:63-81 | a falsy title or link answers 400 and writes nothing; otherwise exactly one row is inserted with a fresh id and the response returns that id, title and link; a write error answers 400 and changes nothing |
| `Server.DeleteEvent` | server.js:84-93 | the gate's rejection is answered and nothing changes; after the gate, only the row with that id is removed and the response reports 1 or 0 changes |
| `Server.PutEvent` | server.js:96-121 | the gate runs before field validation; with a valid password, a falsy title or link answers 400 and writes nothing; otherwise only the row with that id takes the new title and link, and every other row is unchanged |
| `Server.ChangePassword` | server.js:124-150 | a falsy new password or one shorter than 6 characters answers 400 before the stored password is read; a lookup error answers 500; a current password that does not match answers 401 and changes nothing; otherwise the stored password becomes the new one, unless the update fails, which answers 500 |

## Left out

- public/script.js (the visitor page) is left out. It is DOM rendering, `fetch` calls, notifications
  and date formatting with the `zh-TW` locale.
- The DOM, modal, notification and CSS code of the admin page is left out, because it is user
  interface. This covers `fetchAdminEvents`, `formatDate`, `showNotification`, `openEditModal`,
  `closeModal`, the button states and the style block. `deleteEvent` is left out too: it only asks
  `confirm` and `prompt`, then sends the request.
- The `prompt`, `confirm` and `fetch` calls that follow the two form checks are left out. Only the
  decision that precedes them is modelled.
- Express, body-parser, static file serving and `app.listen` are left out. The handlers are methods
  called with the request's fields.
- The asynchronous callback ordering of the SQLite driver is left out. Each handler runs to completion
  as one method, and concurrent requests are not modelled.
- Creating the data directory, opening the database file and the exception thrown when it cannot be
  opened (database.js:8-27) are left out, because they are filesystem I/O. An error while creating the
  events table is only logged by the source and is not modelled. An error while creating the settings
  table is the `createErr` argument, which skips the seeding.
- `CURRENT_TIMESTAMP` is left out. Timestamps are integers supplied by the caller.
- The `:id` path parameter is an integer in the model. The source passes the text of the URL segment
  and lets SQLite's type affinity convert it; a segment that is not a number matches no row, as an
  absent id does here.
- Request values that are not strings (numbers, booleans, objects) and an explicit JSON `null` are not
  modelled. `None` stands for a field the body leaves out. With no `admin_password` row, a
  `currentPassword` of explicit `null` would compare equal to the stored `null`. The request would then
  reach the UPDATE, change no row, and still be answered with success.
- `.length` in JavaScript counts UTF-16 code units; the model counts Unicode scalar values. The two
  differ for passwords with characters outside the Basic Multilingual Plane.
- The order of rows with equal timestamps is left open by SQLite. The model's listing puts the higher
  id first, and `Server.GetEvents` promises only a non-increasing timestamp order.
- The driver's error messages are opaque strings passed in with the error, except for the one the
  `settings` primary key raises.
