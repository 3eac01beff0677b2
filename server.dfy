/** The HTTP API of server.js: the admin-password gate and the handlers of
    `/api/events` and `/api/admin/change-password`. Each handler is a method
    over the database that returns the status and JSON body it sends.
    Request fields are `None` when the body leaves them out; `lookupErr`,
    `err` and the like are the errors the SQLite driver may report to the
    callbacks, and `now` is the clock reading the database stores as the
    new row's timestamp. */
module Server {
  import opened Wrappers
  import opened JsValue
  import opened Database

  const MinPasswordLength := 6

  const PasswordRequired := "Password is required"
  const InternalError := "Internal server error"
  const InvalidPassword := "Unauthorized: Invalid password"
  const MissingTitleOrLink := "Missing title or link"
  const PasswordTooShort := "New password must be at least 6 characters long"
  const InvalidCurrentPassword := "Unauthorized: Invalid current password"
  const PasswordUpdateFailed := "Failed to update password"

  /** The JSON bodies the API sends. */
  datatype Body =
    | ErrorBody(error: string)
      /** `{ message: "success", data: rows }` */
    | EventList(data: seq<Record>)
      /** `{ message: "success", data: { id, title, link } }` after an insert */
    | Created(id: int, title: string, link: string)
      /** `{ message: "deleted", changes }` */
    | Deleted(changes: nat)
      /** `{ message: "success", data: { id, title, link }, changes }` */
    | Updated(id: int, title: string, link: string, changes: nat)
      /** `{ message: "Password changed successfully" }` */
    | PasswordChanged

  datatype Response = Response(status: int, body: Body)

  function Error(status: int, message: string): Response
  {
    Response(status, ErrorBody(message))
  }

  /** `!title || !link` */
  predicate TitleOrLinkMissing(title: Option<string>, link: Option<string>)
  {
    !Truthy(title) || !Truthy(link)
  }

  /** `!newPassword || newPassword.length < 6` */
  predicate NewPasswordRejected(newPassword: Option<string>)
  {
    !Truthy(newPassword) || |newPassword.value| < MinPasswordLength
  }

  /** `field === stored` where the field is `undefined` when absent and the
      stored value is `null` when there is no row: they are never equal
      when either is missing. */
  predicate StrictlyEqual(field: Option<string>, stored: Option<string>)
  {
    field.Some? && field == stored
  }

  /** Event rows whose title and link are non-empty: every row the API
      writes is of this kind. */
  ghost predicate RowsHaveText(events: map<nat, Row>)
  {
    forall id :: id in events ==> events[id].title != [] && events[id].link != []
  }

  // ---------------------------------------------------------------------
  // getAdminPassword and verifyAdminPassword

  /** What `getAdminPassword` hands to its callback: the error, or the
      stored value (`null` when there is no `admin_password` row). */
  function PasswordLookup(db: Store, lookupErr: Option<string>): Result<Option<string>, string>
    reads db
  {
    if lookupErr.Some? then Failure(lookupErr.value) else Success(db.AdminPassword())
  }

  method GetAdminPassword(db: Store, lookupErr: Option<string>) returns (r: Result<Option<string>, string>)
    ensures r == PasswordLookup(db, lookupErr)
    ensures r.Success? ==> (r.value.Some? <==> AdminPasswordKey in db.settings)
  {
    var row := db.GetSetting(AdminPasswordKey, lookupErr);
    if row.Failure? {
      return Failure(row.error);
    }
    r := Success(row.value);
  }

  /** The decision of `verifyAdminPassword`: the response it sends, or
      `None` when it calls `next()`. `lookup` is what `getAdminPassword`
      delivers; it is not consulted for a falsy password. */
  function Gate(provided: Option<string>, lookup: Result<Option<string>, string>): (g: Option<Response>)
    ensures g.None? <==> Truthy(provided) && lookup == Success(provided)
    ensures !Truthy(provided) ==> g == Some(Error(401, PasswordRequired))
    ensures Truthy(provided) && lookup.Failure? ==> g == Some(Error(500, InternalError))
    ensures Truthy(provided) && lookup.Success? && lookup.value != provided ==>
      g == Some(Error(401, InvalidPassword))
  {
    if !Truthy(provided) then Some(Error(401, PasswordRequired))
    else if lookup.Failure? then Some(Error(500, InternalError))
    else if provided != lookup.value then Some(Error(401, InvalidPassword))
    else None
  }

  /** With no `admin_password` row every request is turned away, and a
      present password is turned away with 401. */
  lemma GateWithoutStoredPassword(provided: Option<string>)
    ensures Gate(provided, Success(None)).Some?
    ensures Truthy(provided) ==> Gate(provided, Success(None)) == Some(Error(401, InvalidPassword))
  {
  }

  /** A failed lookup answers 500 for every present password and lets none
      through. */
  lemma GateOnLookupError(provided: Option<string>, message: string)
    ensures Truthy(provided) ==> Gate(provided, Failure(message)) == Some(Error(500, InternalError))
  {
  }

  method VerifyAdminPassword(db: Store, provided: Option<string>, lookupErr: Option<string>)
    returns (rejection: Option<Response>)
    ensures rejection == Gate(provided, PasswordLookup(db, lookupErr))
  {
    if !Truthy(provided) {
      return Some(Error(401, PasswordRequired));
    }
    var adminPassword := GetAdminPassword(db, lookupErr);
    if adminPassword.Failure? {
      return Some(Error(500, InternalError));
    }
    if provided != adminPassword.value {
      return Some(Error(401, InvalidPassword));
    }
    rejection := None;
  }

  // ---------------------------------------------------------------------
  // The handlers

  /** GET /api/events: every row, each once and as stored, newest first. */
  method GetEvents(db: Store, err: Option<string>) returns (resp: Response)
    requires db.Valid()
    ensures err.Some? ==> resp == Error(400, err.value)
    ensures err.None? ==> resp.status == 200 && resp.body.EventList?
    ensures resp.body.EventList? ==>
      NewestFirstOrder(resp.body.data) && DistinctIds(resp.body.data) &&
      forall x :: x in resp.body.data <==> Matches(db.events, x)
  {
    var rows := db.AllNewestFirst(err);
    if rows.Failure? {
      return Error(400, rows.error);
    }
    resp := Response(200, EventList(rows.value));
  }

  /** POST /api/events: title and link are checked before anything is
      written; a new row gets a fresh id above every earlier one. */
  method PostEvent(db: Store, title: Option<string>, link: Option<string>, now: int, err: Option<string>)
    returns (resp: Response)
    requires db.Valid()
    modifies db
    ensures db.Valid()
    ensures TitleOrLinkMissing(title, link) ==>
      resp == Error(400, MissingTitleOrLink) && db.events == old(db.events) && db.lastId == old(db.lastId)
    ensures !TitleOrLinkMissing(title, link) && err.Some? ==>
      resp == Error(400, err.value) && db.events == old(db.events) && db.lastId == old(db.lastId)
    ensures !TitleOrLinkMissing(title, link) && err.None? ==>
      resp == Response(200, Created(db.lastId, title.value, link.value)) &&
      db.lastId == old(db.lastId) + 1 && db.lastId !in old(db.events) &&
      db.events == old(db.events)[db.lastId := Row(title.value, link.value, now)]
    ensures db.settings == old(db.settings)
    ensures RowsHaveText(old(db.events)) ==> RowsHaveText(db.events)
  {
    if TitleOrLinkMissing(title, link) {
      return Error(400, MissingTitleOrLink);
    }
    var id := db.InsertEvent(title.value, link.value, now, err);
    if id.Failure? {
      return Error(400, id.error);
    }
    resp := Response(200, Created(id.value, title.value, link.value));
  }

  /** DELETE /api/events/:id, behind the admin gate: removes that row and
      no other; a missing id changes nothing and reports 0 changes. */
  method DeleteEvent(db: Store, id: int, password: Option<string>, lookupErr: Option<string>, err: Option<string>)
    returns (resp: Response)
    requires db.Valid()
    modifies db
    ensures db.Valid()
    ensures old(Gate(password, PasswordLookup(db, lookupErr))).Some? ==>
      resp == old(Gate(password, PasswordLookup(db, lookupErr))).value && db.events == old(db.events)
    ensures old(Gate(password, PasswordLookup(db, lookupErr))).None? && err.Some? ==>
      resp == Error(400, err.value) && db.events == old(db.events)
    ensures old(Gate(password, PasswordLookup(db, lookupErr))).None? && err.None? ==>
      resp == Response(200, Deleted(if id in old(db.events) then 1 else 0)) &&
      db.events == old(db.events) - {id}
    ensures db.lastId == old(db.lastId) && db.settings == old(db.settings)
    ensures RowsHaveText(old(db.events)) ==> RowsHaveText(db.events)
  {
    var rejection := VerifyAdminPassword(db, password, lookupErr);
    if rejection.Some? {
      return rejection.value;
    }
    var changes := db.DeleteEvent(id, err);
    if changes.Failure? {
      return Error(400, changes.error);
    }
    resp := Response(200, Deleted(changes.value));
  }

  /** PUT /api/events/:id: the admin gate runs first, then the title/link
      check; only the row with that id changes, in title and link. */
  method PutEvent(db: Store, id: int, password: Option<string>, title: Option<string>, link: Option<string>,
                  lookupErr: Option<string>, err: Option<string>)
    returns (resp: Response)
    requires db.Valid()
    modifies db
    ensures db.Valid()
    ensures old(Gate(password, PasswordLookup(db, lookupErr))).Some? ==>
      resp == old(Gate(password, PasswordLookup(db, lookupErr))).value && db.events == old(db.events)
    ensures old(Gate(password, PasswordLookup(db, lookupErr))).None? && TitleOrLinkMissing(title, link) ==>
      resp == Error(400, MissingTitleOrLink) && db.events == old(db.events)
    ensures (old(Gate(password, PasswordLookup(db, lookupErr))).None? && !TitleOrLinkMissing(title, link) &&
             err.Some?) ==> resp == Error(400, err.value) && db.events == old(db.events)
    ensures (old(Gate(password, PasswordLookup(db, lookupErr))).None? && !TitleOrLinkMissing(title, link) &&
             err.None?) ==>
      resp == Response(200, Updated(id, title.value, link.value, if id in old(db.events) then 1 else 0)) &&
      db.events == if id in old(db.events)
        then old(db.events)[id := Row(title.value, link.value, old(db.events)[id].timestamp)]
        else old(db.events)
    ensures db.lastId == old(db.lastId) && db.settings == old(db.settings)
    ensures RowsHaveText(old(db.events)) ==> RowsHaveText(db.events)
  {
    var rejection := VerifyAdminPassword(db, password, lookupErr);
    if rejection.Some? {
      return rejection.value;
    }
    if TitleOrLinkMissing(title, link) {
      return Error(400, MissingTitleOrLink);
    }
    var changes := db.UpdateEvent(id, title.value, link.value, err);
    if changes.Failure? {
      return Error(400, changes.error);
    }
    resp := Response(200, Updated(id, title.value, link.value, changes.value));
  }

  /** POST /api/admin/change-password: the new password's length is checked
      before the stored password is read; a wrong current password changes
      nothing; on success the stored password is the new one. */
  method ChangePassword(db: Store, currentPassword: Option<string>, newPassword: Option<string>,
                        lookupErr: Option<string>, err: Option<string>)
    returns (resp: Response)
    modifies db
    ensures NewPasswordRejected(newPassword) ==>
      resp == Error(400, PasswordTooShort) && db.settings == old(db.settings)
    ensures !NewPasswordRejected(newPassword) && lookupErr.Some? ==>
      resp == Error(500, InternalError) && db.settings == old(db.settings)
    ensures (!NewPasswordRejected(newPassword) && lookupErr.None? &&
             !StrictlyEqual(currentPassword, old(db.AdminPassword()))) ==>
      resp == Error(401, InvalidCurrentPassword) && db.settings == old(db.settings)
    ensures (!NewPasswordRejected(newPassword) && lookupErr.None? &&
             StrictlyEqual(currentPassword, old(db.AdminPassword())) && err.Some?) ==>
      resp == Error(500, PasswordUpdateFailed) && db.settings == old(db.settings)
    ensures (!NewPasswordRejected(newPassword) && lookupErr.None? &&
             StrictlyEqual(currentPassword, old(db.AdminPassword())) && err.None?) ==>
      resp == Response(200, PasswordChanged) &&
      db.settings == old(db.settings)[AdminPasswordKey := newPassword.value] &&
      db.AdminPassword() == newPassword
    ensures resp.status == 200 <==> resp.body == PasswordChanged
    ensures AdminPasswordKey in old(db.settings) ==> AdminPasswordKey in db.settings
    ensures db.events == old(db.events) && db.lastId == old(db.lastId)
  {
    if NewPasswordRejected(newPassword) {
      return Error(400, PasswordTooShort);
    }
    var adminPassword := GetAdminPassword(db, lookupErr);
    if adminPassword.Failure? {
      return Error(500, InternalError);
    }
    if !StrictlyEqual(currentPassword, adminPassword.value) {
      return Error(401, InvalidCurrentPassword);
    }
    var updated := db.UpdateSetting(AdminPasswordKey, newPassword.value, err);
    if updated.Failure? {
      return Error(500, PasswordUpdateFailed);
    }
    resp := Response(200, PasswordChanged);
  }
}
