/**
 * `POST /api/users/:_id/exercises` of the main server: look the user up,
 * check the id's format, build one entry (its date rendered as a calendar
 * date and stored as that day's midnight), push it onto the user's log and
 * save the user.
 */
module IndexRoutes {
  import opened ExerciseLog
  import opened DocumentStore
  import opened LogQuery

  /** The reply to an exercise submission. */
  datatype AddReply =
      /** 200 with the user and the stored entry, its date shown as a calendar day. */
    | Added(id: string, username: string, day: int, duration: int, description: string)
      /** 400 with the id-format message. */
    | InvalidUserId(message: string)
      /** The save was refused by the schema; its error text is sent with status 200. */
    | SaveFailed
      /** The lookup threw, or found no user: the handler sends nothing at all. */
    | NoReply

  /**
   * `Number(duration)`: a missing value is NaN (`None`); `null` and the
   * empty string are 0; a string is what `Number` makes of it. It gives the
   * schema's own cast of the raw value, except that it turns `null` and the
   * empty string, which the schema refuses, into 0.
   */
  function ToNumber(v: RawValue): (r: Option<int>)
    ensures r != CastNumber(v) <==> v.Null? || (v.Text? && v.text == "")
    ensures r != CastNumber(v) ==> r == Some(0) && CastNumber(v).None?
    ensures v.Absent? ==> r.None?
    ensures v.Null? || (v.Text? && v.text == "") ==> r == Some(0)
    ensures v.Num? ==> r == Some(v.n)
    ensures v.Text? && v.text != "" ==> r == v.number
  {
    match v
    case Absent => None
    case Null => Some(0)
    case Text(t, n) => if t == "" then Some(0) else n
    case Num(n) => Some(n)
  }

  /**
   * The stored date: the supplied date, or the current time when none is
   * supplied, rendered as a calendar date and read back as that day's
   * midnight. `None` when the supplied date is Invalid Date, which the
   * schema then refuses.
   */
  function StoredDate(date: Option<RawDate>, now: int): (r: Option<int>)
    ensures r.Some? ==> r.value % MsPerDay == 0
    ensures !Supplied(date) ==> r.Some? && DayOf(r.value) == DayOf(now)
    ensures Supplied(date) ==> (r.Some? <==> date.value.parsed.Some?)
    ensures Supplied(date) && r.Some? ==> DayOf(r.value) == DayOf(date.value.parsed.value)
  {
    if !Supplied(date) then Some(StartOfDay(now))
    else match date.value.parsed
      case Some(t) => Some(StartOfDay(t))
      case None => None
  }

  /**
   * The object the handler pushes: `Number(duration)` and the stored date.
   * The schema's own number cast keeps a number as it is.
   */
  function NewDraft(req: ExerciseRequest, now: int): (d: Draft)
    ensures d.description == req.description
    ensures d.duration.None? <==>
              req.duration.Absent? || (req.duration.Text? && req.duration.text != "" && req.duration.number.None?)
    ensures d.date.None? <==> Supplied(req.date) && req.date.value.parsed.None?
    ensures d.date.Some? ==>
              && d.date.value % MsPerDay == 0
              && DayOf(d.date.value) == DayOf(if Supplied(req.date) then req.date.value.parsed.value else now)
  {
    Draft(req.description, ToNumber(req.duration), StoredDate(req.date, now))
  }

  /**
   * The whole effect of one submission on the store, and its reply. The
   * lookup comes first: an id the store cannot convert makes it throw, and
   * the request gets no reply. A malformed id then gets 400 and an unknown
   * user gets no reply; a draft the schema refuses is not saved. Otherwise
   * exactly one entry, carrying the submitted description, the duration as
   * `Number` makes it and the stored date, is added at the end of that
   * user's log, and nothing else in the store changes.
   */
  function AddExercise(users: map<string, User>, ids: IdRules, id: string,
                       req: ExerciseRequest, now: int): (o: Outcome<AddReply>)
    ensures !ids.casts(id) ==> o == Outcome(NoReply, users)
    ensures ids.casts(id) && !ids.isValid(id) ==> o == Outcome(InvalidUserId(InvalidUserIdMessage), users)
    ensures ids.casts(id) && ids.isValid(id) && id !in users ==> o == Outcome(NoReply, users)
    ensures o.reply.Added? <==>
              ids.casts(id) && ids.isValid(id) && id in users && Validate(NewDraft(req, now)).Some?
    ensures ids.casts(id) && ids.isValid(id) && id in users && !o.reply.Added? ==> o.reply == SaveFailed
    ensures !o.reply.Added? ==> o.users == users
    ensures o.reply.Added? ==>
              && o.users.Keys == users.Keys
              && (forall k :: k in users && k != id ==> o.users[k] == users[k])
              && o.reply.id == id
              && o.reply.username == o.users[id].username == users[id].username
              && |o.users[id].logs| == |users[id].logs| + 1
              && o.users[id].logs[..|users[id].logs|] == users[id].logs
    ensures o.reply.Added? ==>
              var e := o.users[id].logs[|users[id].logs|];
              && e.description == o.reply.description == req.description.value
              && Some(e.duration) == Some(o.reply.duration) == ToNumber(req.duration)
              && Some(e.date) == StoredDate(req.date, now)
              && DayOf(e.date) == o.reply.day
  {
    if !ids.casts(id) then Outcome(NoReply, users)
    else if !ids.isValid(id) then Outcome(InvalidUserId(InvalidUserIdMessage), users)
    else if id !in users then Outcome(NoReply, users)
    else match Validate(NewDraft(req, now))
      case None => Outcome(SaveFailed, users)
      case Some(e) =>
        var u := users[id];
        Outcome(Added(id, u.username, DayOf(e.date), e.duration, e.description),
                users[id := User(u.username, u.logs + [e])])
  }

  /**
   * The handler, step by step against the store: `findById`, the id check,
   * the push onto the loaded document and the save. A draft the schema
   * refuses is never written: the source pushes it and then fails to save,
   * which leaves the store as it was.
   */
  method PostExercise(store: Store, ids: IdRules, id: string,
                      req: ExerciseRequest, now: int) returns (reply: AddReply)
    modifies store
    ensures reply == AddExercise(old(store.users), ids, id, req, now).reply
    ensures store.users == AddExercise(old(store.users), ids, id, req, now).users
  {
    var failed, user := store.FindById(id, ids.casts);
    if failed {
      return NoReply;
    }
    if !ids.isValid(id) {
      return InvalidUserId(InvalidUserIdMessage);
    }
    if user == null {
      return NoReply;
    }
    var entry := Validate(NewDraft(req, now));
    if entry.None? {
      return SaveFailed;
    }
    user.Push(entry.value);
    store.Save(user);
    reply := Added(user.id, user.username, DayOf(entry.value.date), entry.value.duration,
                   entry.value.description);
  }

  /**
   * An exercise submitted without a date is listed, last, by any later log
   * read without query parameters, and the count grows by exactly one.
   */
  lemma AddedEntryIsListed(users: map<string, User>, ids: IdRules, id: string,
                           req: ExerciseRequest, now: int, later: int)
    requires AddExercise(users, ids, id, req, now).reply.Added?
    requires !Supplied(req.date) && 0 <= now <= later
    ensures var before := QueryLogs(users, ids, id, NoFilters, later);
            var after := QueryLogs(AddExercise(users, ids, id, req, now).users, ids, id, NoFilters, later);
            && before.Logs? && after.Logs?
            && after.count == before.count + 1
            && after.log == before.log + [LogView(req.description.value, ToNumber(req.duration).value, DayOf(now))]
  {
    var o := AddExercise(users, ids, id, req, now);
    var old_logs := users[id].logs;
    var e := o.users[id].logs[|old_logs|];
    assert o.users[id].logs == old_logs + [e];
    var from, to := FromBound(NoFilters), ToBound(NoFilters, later);
    assert Kept(e, from, to) == [e];
    FilterRangeAppend(old_logs, e, from, to);
    var f := FilterRange(old_logs, from, to);
    assert Project(f + [e]) == Project(f) + [View(e)];
  }
}
