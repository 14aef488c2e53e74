/**
 * The second server variant: `POST /api/users/:_id/exercises` checks the
 * id's format and the shape of a supplied date before it touches the store,
 * then appends one entry with the date as given (or the current time); its
 * `GET /api/users/:_id/logs` returns every stored entry, unfiltered, with
 * the total count.
 */
module FinalRoutes {
  import opened ExerciseLog
  import opened DocumentStore

  predicate IsDigit(c: char) {
    '0' <= c <= '9'
  }

  /** `/^\d{4}-\d{2}-\d{2}$/.test(s)`: four digits, a dash, two digits, a dash, two digits, nothing more. */
  predicate IsDateShape(s: string) {
    && |s| == 10
    && IsDigit(s[0]) && IsDigit(s[1]) && IsDigit(s[2]) && IsDigit(s[3])
    && s[4] == '-'
    && IsDigit(s[5]) && IsDigit(s[6])
    && s[7] == '-'
    && IsDigit(s[8]) && IsDigit(s[9])
  }

  function Digit(n: nat): (c: char)
    requires n < 10
    ensures IsDigit(c)
  {
    ('0' as int + n) as char
  }

  function DigitValue(c: char): (n: nat)
    requires IsDigit(c)
    ensures n < 10 && Digit(n) == c
  {
    c as int - '0' as int
  }

  /** `y`, `m` and `d` written as `yyyy-mm-dd`, zero-padded. */
  function ShapedDate(y: nat, m: nat, d: nat): (s: string)
    requires y < 10000 && m < 100 && d < 100
    ensures IsDateShape(s)
  {
    [Digit(y / 1000), Digit(y / 100 % 10), Digit(y / 10 % 10), Digit(y % 10), '-',
     Digit(m / 10), Digit(m % 10), '-',
     Digit(d / 10), Digit(d % 10)]
  }

  /** The number spelt by the digits `a` and `b`, and back. */
  lemma TwoDigits(a: nat, b: nat)
    requires a < 10 && b < 10
    ensures (10 * a + b) / 10 == a && (10 * a + b) % 10 == b
  {
  }

  /** The number spelt by the digits `a`, `b`, `c` and `d`, and back. */
  lemma FourDigits(a: nat, b: nat, c: nat, d: nat)
    requires a < 10 && b < 10 && c < 10 && d < 10
    ensures var y := 1000 * a + 100 * b + 10 * c + d;
            y / 1000 == a && y / 100 % 10 == b && y / 10 % 10 == c && y % 10 == d
  {
    var y := 1000 * a + 100 * b + 10 * c + d;
    assert y / 10 == 100 * a + 10 * b + c;
    assert y / 100 == 10 * a + b;
    TwoDigits(a, b);
    assert y / 10 % 10 == c;
  }

  /** The three numbers a date-shaped string spells; writing them back gives the string. */
  function DateFields(s: string): (f: (nat, nat, nat))
    requires IsDateShape(s)
    ensures f.0 < 10000 && f.1 < 100 && f.2 < 100
    ensures ShapedDate(f.0, f.1, f.2) == s
  {
    var (y0, y1, y2, y3) := (DigitValue(s[0]), DigitValue(s[1]), DigitValue(s[2]), DigitValue(s[3]));
    var (m0, m1) := (DigitValue(s[5]), DigitValue(s[6]));
    var (d0, d1) := (DigitValue(s[8]), DigitValue(s[9]));
    FourDigits(y0, y1, y2, y3);
    TwoDigits(m0, m1);
    TwoDigits(d0, d1);
    (1000 * y0 + 100 * y1 + 10 * y2 + y3, 10 * m0 + m1, 10 * d0 + d1)
  }

  /** The shape check accepts exactly the zero-padded renderings of a year, a month and a day. */
  lemma DateShapeCharacterized(s: string)
    ensures IsDateShape(s) <==>
            exists y: nat, m: nat, d: nat :: y < 10000 && m < 100 && d < 100 && s == ShapedDate(y, m, d)
  {
    if IsDateShape(s) {
      var f := DateFields(s);
      assert s == ShapedDate(f.0, f.1, f.2);
    }
  }

  /** The reply to an exercise submission. */
  datatype AddReply =
      /** 200 echoing the request's own date text, duration and description. */
    | Added(id: string, username: string, date: Option<string>, duration: RawValue, description: string)
      /** 400 with the id-format message. */
    | InvalidUserId(message: string)
      /** 400 with the date-format message. */
    | BadDateFormat(message: string)
      /** The save was refused by the schema; its error text is sent with status 200. */
    | SaveFailed
      /** The lookup threw, or found no user: the handler sends nothing at all. */
    | NoReply

  const DateFormatMessage: string := "Date must be in yyyy-mm-dd format"

  /** A supplied date that fails the `yyyy-mm-dd` shape check. */
  predicate MisshapenDate(date: Option<RawDate>) {
    Supplied(date) && !IsDateShape(date.value.text)
  }

  /**
   * The object the handler pushes: the raw duration, which the schema casts,
   * and `date ? new Date(date) : new Date()`, the supplied date as parsed or
   * the current time.
   */
  function NewDraft(req: ExerciseRequest, now: int): (d: Draft)
    ensures !Supplied(req.date) ==> d.date == Some(now)
    ensures Supplied(req.date) ==> d.date == req.date.value.parsed
    ensures d.description == req.description
    ensures d.duration == CastNumber(req.duration)
  {
    Draft(req.description, CastNumber(req.duration), if Supplied(req.date) then req.date.value.parsed else Some(now))
  }

  /**
   * The whole effect of one submission on the store, and its reply. The id
   * check and then the date-shape check come first and do not depend on the
   * store. Then a lookup that throws, or finds no user, gets no reply, and a
   * draft the schema refuses is not saved; otherwise exactly one entry is
   * added at the end of that user's log, with the submitted description, the
   * duration as the schema casts it and the date as parsed or the current
   * time, and nothing else changes.
   */
  function AddExercise(users: map<string, User>, ids: IdRules, id: string,
                       req: ExerciseRequest, now: int): (o: Outcome<AddReply>)
    ensures !ids.isValid(id) ==> o == Outcome(InvalidUserId(InvalidUserIdMessage), users)
    ensures ids.isValid(id) && MisshapenDate(req.date) ==> o == Outcome(BadDateFormat(DateFormatMessage), users)
    ensures ids.isValid(id) && !MisshapenDate(req.date) && (!ids.casts(id) || id !in users) ==>
              o == Outcome(NoReply, users)
    ensures o.reply.Added? <==>
              && ids.isValid(id) && !MisshapenDate(req.date) && ids.casts(id) && id in users
              && Validate(NewDraft(req, now)).Some?
    ensures ids.isValid(id) && !MisshapenDate(req.date) && ids.casts(id) && id in users && !o.reply.Added? ==>
              o.reply == SaveFailed
    ensures !o.reply.Added? ==> o.users == users
    ensures o.reply.Added? ==>
              && o.users.Keys == users.Keys
              && (forall k :: k in users && k != id ==> o.users[k] == users[k])
              && o.reply.id == id
              && o.reply.username == o.users[id].username == users[id].username
              && |o.users[id].logs| == |users[id].logs| + 1
              && o.users[id].logs[..|users[id].logs|] == users[id].logs
    ensures o.reply.Added? ==>
              var e := o.users[id].logs[|users[id].logs|];
              && e.description == o.reply.description == req.description.value
              && Some(e.duration) == CastNumber(req.duration)
              && o.reply.duration == req.duration
              && (Supplied(req.date) ==> Some(e.date) == req.date.value.parsed)
              && (!Supplied(req.date) ==> e.date == now)
              && o.reply.date == (if req.date.Some? then Some(req.date.value.text) else None)
  {
    if !ids.isValid(id) then Outcome(InvalidUserId(InvalidUserIdMessage), users)
    else if MisshapenDate(req.date) then Outcome(BadDateFormat(DateFormatMessage), users)
    else if !ids.casts(id) || id !in users then Outcome(NoReply, users)
    else match Validate(NewDraft(req, now))
      case None => Outcome(SaveFailed, users)
      case Some(e) =>
        var u := users[id];
        var echoed := if req.date.Some? then Some(req.date.value.text) else None;
        Outcome(Added(id, u.username, echoed, req.duration, e.description),
                users[id := User(u.username, u.logs + [e])])
  }

  /**
   * The handler, step by step: the two format checks, `findById`, the push
   * onto the loaded document and the save. The source repeats the id check
   * after the lookup; it cannot fail there and is not repeated here.
   */
  method PostExercise(store: Store, ids: IdRules, id: string,
                      req: ExerciseRequest, now: int) returns (reply: AddReply)
    modifies store
    ensures reply == AddExercise(old(store.users), ids, id, req, now).reply
    ensures store.users == AddExercise(old(store.users), ids, id, req, now).users
  {
    if !ids.isValid(id) {
      return InvalidUserId(InvalidUserIdMessage);
    }
    if MisshapenDate(req.date) {
      return BadDateFormat(DateFormatMessage);
    }
    var failed, user := store.FindById(id, ids.casts);
    if failed || user == null {
      return NoReply;
    }
    var entry := Validate(NewDraft(req, now));
    if entry.None? {
      return SaveFailed;
    }
    user.Push(entry.value);
    store.Save(user);
    var echoed := if req.date.Some? then Some(req.date.value.text) else None;
    reply := Added(user.id, user.username, echoed, req.duration, entry.value.description);
  }

  /**
   * `GET /api/users/:_id/logs`: the thrown error's text when the lookup
   * throws, the 404 reply for an unknown user, else every stored entry in
   * stored order, each date cut to its `yyyy-mm-dd` day, and the total
   * number of stored entries.
   */
  function ReadLogs(users: map<string, User>, ids: IdRules, id: string): (r: LogsReply)
    ensures r.ErrorText? <==> !ids.casts(id)
    ensures r.UserNotFound? <==> ids.casts(id) && id !in users
    ensures r.UserNotFound? ==> r.message == UserNotFoundMessage
    ensures !r.ServerError?
    ensures r.Logs? ==> r.id == id && r.username == users[id].username
    ensures r.Logs? ==> r.count == |users[id].logs| == |r.log|
    ensures r.Logs? ==> forall i :: 0 <= i < |r.log| ==> r.log[i] == View(users[id].logs[i])
  {
    if !ids.casts(id) then ErrorText
    else if id !in users then UserNotFound(UserNotFoundMessage)
    else Logs(id, users[id].username, |users[id].logs|, Project(users[id].logs))
  }

  /**
   * After a successful submission the read lists one more entry, last: the
   * submitted description, the duration as the schema casts it, on the day
   * of the supplied date or, without one, of the submission.
   */
  lemma AddedEntryIsRead(users: map<string, User>, ids: IdRules, id: string,
                         req: ExerciseRequest, now: int)
    requires AddExercise(users, ids, id, req, now).reply.Added?
    ensures var before := ReadLogs(users, ids, id);
            var o := AddExercise(users, ids, id, req, now);
            var after := ReadLogs(o.users, ids, id);
            && before.Logs? && after.Logs?
            && after.count == before.count + 1
            && after.log == before.log + [LogView(req.description.value, CastNumber(req.duration).value,
                                                  DayOf(if Supplied(req.date) then req.date.value.parsed.value else now))]
  {
    var o := AddExercise(users, ids, id, req, now);
    var n := |users[id].logs|;
    assert o.users[id].logs == users[id].logs + [o.users[id].logs[n]];
  }
}
