/**
 * The data shared by both route files: the log-entry schema, the user
 * document, the request fields of an exercise submission, and how a stored
 * date is shown in a reply.
 *
 * Dates are milliseconds since the epoch. JavaScript's date parsing and its
 * calendar rendering are not modelled as text: a request date arrives
 * together with what `new Date(text)` makes of it, and a rendered date is
 * the calendar day it names (days counted from the epoch, UTC).
 */
module ExerciseLog {

  datatype Option<+T> = None | Some(value: T)

  /** Milliseconds in one calendar day. */
  const MsPerDay: int := 86_400_000

  /** One stored exercise; `date` is in epoch milliseconds. */
  datatype LogEntry = LogEntry(description: string, duration: int, date: int)

  /** A user document: its name and its embedded, ordered log. */
  datatype User = User(username: string, logs: seq<LogEntry>)

  /**
   * A date string from a request, with the result of `new Date(text)`:
   * `None` is JavaScript's Invalid Date (a NaN time value).
   */
  datatype RawDate = RawDate(text: string, parsed: Option<int>)

  /**
   * A scalar field of a request body as it arrives: missing, `null`, a
   * string (with what `Number(text)` makes of it, `None` for NaN) or a number.
   */
  datatype RawValue = Absent | Null | Text(text: string, number: Option<int>) | Num(n: int)

  /** The body of an exercise submission. */
  datatype ExerciseRequest =
    ExerciseRequest(description: Option<string>, duration: RawValue, date: Option<RawDate>)

  /**
   * The schema's number cast together with its `required` rule: a missing
   * value, `null` and the empty string give no number; a string gives
   * `Number(text)`, and one that is not a number fails the cast.
   */
  function CastNumber(v: RawValue): (r: Option<int>)
    ensures v.Absent? || v.Null? || (v.Text? && v.text == "") ==> r.None?
    ensures v.Num? ==> r == Some(v.n)
    ensures v.Text? && v.text != "" ==> r == v.number
  {
    match v
    case Absent => None
    case Null => None
    case Text(t, n) => if t == "" then None else n
    case Num(n) => Some(n)
  }

  /**
   * The two id rules the handlers meet: `isValid` is the id-format check a
   * handler calls itself, `casts` tells which ids the store's lookup can
   * convert to its own id type; the lookup throws for any other id.
   */
  datatype IdRules = IdRules(isValid: string -> bool, casts: string -> bool)

  /** A reply together with the store as the request leaves it. */
  datatype Outcome<R> = Outcome(reply: R, users: map<string, User>)

  const InvalidUserIdMessage: string := "Invalid user ID format"

  /** JavaScript truthiness of a request date: a missing or empty string is falsy. */
  predicate Supplied(d: Option<RawDate>) {
    d.Some? && d.value.text != ""
  }

  /**
   * The object pushed onto `user.logs` before the document is saved. A
   * `None` date stands for a date the schema cannot cast.
   */
  datatype Draft = Draft(description: Option<string>, duration: Option<int>, date: Option<int>)

  /** The schema's `required` rule for a string: present and non-empty. */
  predicate RequiredText(s: Option<string>) {
    s.Some? && s.value != ""
  }

  /**
   * The log-entry schema run by `save`: description and duration are
   * required, and the date must be a valid date. A draft that passes
   * becomes the stored entry with its fields unchanged.
   */
  function Validate(d: Draft): (r: Option<LogEntry>)
    ensures r.Some? <==> RequiredText(d.description) && d.duration.Some? && d.date.Some?
    ensures r.Some? ==>
              && r.value.description == d.description.value
              && r.value.duration == d.duration.value
              && r.value.date == d.date.value
  {
    if RequiredText(d.description) && d.duration.Some? && d.date.Some? then
      Some(LogEntry(d.description.value, d.duration.value, d.date.value))
    else
      None
  }

  /** The calendar day (counted from the epoch) a time falls on. */
  function DayOf(t: int): int {
    t / MsPerDay
  }

  /**
   * Midnight of the day `t` falls on: what rendering a time as a calendar
   * date and parsing that text back yields.
   */
  function StartOfDay(t: int): (r: int)
    ensures r <= t < r + MsPerDay
    ensures r % MsPerDay == 0
    ensures DayOf(r) == DayOf(t)
    ensures t >= 0 ==> r >= 0
  {
    DayOf(t) * MsPerDay
  }

  /** A log entry as a reply shows it: its date rendered as a calendar day. */
  datatype LogView = LogView(description: string, duration: int, day: int)

  function View(e: LogEntry): LogView {
    LogView(e.description, e.duration, DayOf(e.date))
  }

  /** Every entry of `s`, in order, as a reply shows it. */
  function Project(s: seq<LogEntry>): seq<LogView> {
    seq(|s|, i requires 0 <= i < |s| => View(s[i]))
  }

  /** The reply of a log read. */
  datatype LogsReply =
      /** 200 with the shown entries and their count. */
    | Logs(id: string, username: string, count: int, log: seq<LogView>)
      /** 404 with `UserNotFoundMessage`. */
    | UserNotFound(message: string)
      /** 500 with a fixed text, after the lookup threw. */
    | ServerError(message: string)
      /** The thrown error's own text, sent with status 200. */
    | ErrorText

  const UserNotFoundMessage: string := "User not found"
  const ServerErrorMessage: string := "Server Error"
}
