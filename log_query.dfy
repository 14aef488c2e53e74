/**
 * The exercise-log read of the main server: keep the user's entries whose
 * date lies in the inclusive range [from, to], keep the first `limit` of
 * them when `limit` is positive, show each one, and report how many were
 * shown.
 */
module LogQuery {
  import opened ExerciseLog

  /**
   * A bound of the date range: a time, or Invalid Date, against which every
   * comparison is false.
   */
  datatype Bound = At(ms: int) | InvalidDate

  /**
   * The query string of a log read. `limit` is what `parseInt` makes of the
   * parameter, `None` for NaN (which is also what a missing one gives).
   */
  datatype Query = Query(from: Option<RawDate>, to: Option<RawDate>, limit: Option<int>)

  /** A read with no query parameters at all. */
  const NoFilters: Query := Query(None, None, None)

  /** `parseInt(limit) || 0`: NaN becomes 0, every number is kept. */
  function Limit(q: Query): int {
    match q.limit
    case None => 0
    case Some(n) => n
  }

  /** `new Date(param || fallback)`: a falsy parameter gives the fallback time. */
  function ResolveBound(d: Option<RawDate>, fallback: int): Bound {
    if !Supplied(d) then At(fallback)
    else match d.value.parsed
      case Some(t) => At(t)
      case None => InvalidDate
  }

  /** The lower bound: the epoch when `from` is absent. */
  function FromBound(q: Query): (b: Bound)
    ensures !Supplied(q.from) ==> b == At(0)
    ensures Supplied(q.from) ==> (b.At? <==> q.from.value.parsed.Some?)
    ensures b.At? && Supplied(q.from) ==> b.ms == q.from.value.parsed.value
  {
    ResolveBound(q.from, 0)
  }

  /** The upper bound: the current time when `to` is absent. */
  function ToBound(q: Query, now: int): (b: Bound)
    ensures !Supplied(q.to) ==> b == At(now)
    ensures Supplied(q.to) ==> (b.At? <==> q.to.value.parsed.Some?)
    ensures b.At? && Supplied(q.to) ==> b.ms == q.to.value.parsed.value
  {
    ResolveBound(q.to, now)
  }

  /** `logDate >= from && logDate <= to`; false whenever a bound is Invalid Date. */
  predicate InRange(t: int, from: Bound, to: Bound) {
    from.At? && to.At? && from.ms <= t <= to.ms
  }

  /** `a` is `b` with some elements left out, the rest kept in order. */
  ghost predicate IsSubsequence<T>(a: seq<T>, b: seq<T>)
    decreases |b|
  {
    if a == [] then true
    else if b == [] then false
    else (a[0] == b[0] && IsSubsequence(a[1..], b[1..])) || IsSubsequence(a, b[1..])
  }

  /** `user.logs.filter(...)`: the stored entries dated within [from, to]. */
  function FilterRange(s: seq<LogEntry>, from: Bound, to: Bound): (r: seq<LogEntry>)
    ensures |r| <= |s|
    ensures forall i :: 0 <= i < |r| ==> InRange(r[i].date, from, to)
  {
    if s == [] then [] else Kept(s[0], from, to) + FilterRange(s[1..], from, to)
  }

  /** The filter keeps stored entries only, in stored order. */
  lemma {:induction false} FilterRangeIsSubsequence(s: seq<LogEntry>, from: Bound, to: Bound)
    ensures IsSubsequence(FilterRange(s, from, to), s)
  {
    if s != [] {
      var rest := FilterRange(s[1..], from, to);
      FilterRangeIsSubsequence(s[1..], from, to);
      if InRange(s[0].date, from, to) {
        var r := [s[0]] + rest;
        assert r[0] == s[0] && r[1..] == rest;
      } else {
        assert FilterRange(s, from, to) == rest;
      }
    }
  }

  /** The filter keeps every stored entry in range, as often as it is stored, and no other. */
  lemma {:induction false} FilterRangeCounts(s: seq<LogEntry>, from: Bound, to: Bound)
    ensures forall e :: multiset(FilterRange(s, from, to))[e]
                        == if InRange(e.date, from, to) then multiset(s)[e] else 0
  {
    if s != [] {
      FilterRangeCounts(s[1..], from, to);
      assert s == [s[0]] + s[1..];
      assert multiset(s) == multiset([s[0]]) + multiset(s[1..]);
      assert multiset(FilterRange(s, from, to))
             == multiset(Kept(s[0], from, to)) + multiset(FilterRange(s[1..], from, to));
    }
  }

  /** One entry as the filter passes it on: itself when in range, nothing otherwise. */
  function Kept(e: LogEntry, from: Bound, to: Bound): seq<LogEntry> {
    if InRange(e.date, from, to) then [e] else []
  }

  function Min(a: int, b: int): int {
    if a <= b then a else b
  }

  /**
   * `limit > 0 ? s.slice(0, limit) : s`: a prefix of `s`, of length
   * `limit` capped at `|s|` when `limit` is positive, all of `s` otherwise.
   */
  function TakeLimit(s: seq<LogEntry>, limit: int): (r: seq<LogEntry>)
    ensures |r| <= |s| && r == s[..|r|]
    ensures limit > 0 ==> |r| == Min(limit, |s|)
    ensures limit <= 0 ==> |r| == |s|
  {
    if limit > 0 && limit < |s| then s[..limit] else s
  }

  /** The entries a log read returns, before they are shown. */
  function Selected(logs: seq<LogEntry>, q: Query, now: int): seq<LogEntry> {
    TakeLimit(FilterRange(logs, FromBound(q), ToBound(q, now)), Limit(q))
  }

  /**
   * `GET /api/users/:_id/logs`: 500 when the lookup throws, 404 for an
   * unknown user, else the user's name, the selected entries shown in
   * stored order, and their number.
   */
  function QueryLogs(users: map<string, User>, ids: IdRules, id: string, q: Query, now: int): (r: LogsReply)
    ensures r.ServerError? <==> !ids.casts(id)
    ensures r.ServerError? ==> r.message == ServerErrorMessage
    ensures r.UserNotFound? <==> ids.casts(id) && id !in users
    ensures r.UserNotFound? ==> r.message == UserNotFoundMessage
    ensures !r.ErrorText?
    ensures r.Logs? ==> r.id == id && r.username == users[id].username
    ensures r.Logs? ==> r.count == |r.log| && r.count <= |users[id].logs|
    ensures r.Logs? ==> r.log == Project(Selected(users[id].logs, q, now))
  {
    if !ids.casts(id) then ServerError(ServerErrorMessage)
    else if id !in users then UserNotFound(UserNotFoundMessage)
    else
      var limited := Selected(users[id].logs, q, now);
      Logs(id, users[id].username, |limited|, Project(limited))
  }

  /** A prefix of a subsequence of `b` is itself a subsequence of `b`. */
  lemma {:induction false} PrefixIsSubsequence<T>(a: seq<T>, b: seq<T>, k: nat)
    requires IsSubsequence(a, b) && k <= |a|
    ensures IsSubsequence(a[..k], b)
    decreases |b|
  {
    if k == 0 || a == [] {
      assert a[..k] == [];
    } else if a[0] == b[0] && IsSubsequence(a[1..], b[1..]) {
      PrefixIsSubsequence(a[1..], b[1..], k - 1);
      assert a[..k][0] == b[0] && a[..k][1..] == a[1..][..k - 1];
    } else {
      PrefixIsSubsequence(a, b[1..], k);
    }
  }

  /**
   * What a log read selects: entries of the stored log in stored order,
   * each with its date in [from, to], and always a prefix of the entries in
   * range: with a positive limit, the first `min(limit, n)` of the n entries
   * in range; otherwise every stored entry in range, as often as it is stored.
   */
  lemma SelectedCharacterized(logs: seq<LogEntry>, q: Query, now: int)
    ensures var sel := Selected(logs, q, now);
            var from, to := FromBound(q), ToBound(q, now);
            && IsSubsequence(sel, logs)
            && sel == FilterRange(logs, from, to)[..|sel|]
            && (forall i :: 0 <= i < |sel| ==> InRange(sel[i].date, from, to))
            && (Limit(q) > 0 ==> |sel| == Min(Limit(q), |FilterRange(logs, from, to)|))
            && (Limit(q) <= 0 ==>
                  forall e :: multiset(sel)[e] == if InRange(e.date, from, to) then multiset(logs)[e] else 0)
  {
    var f := FilterRange(logs, FromBound(q), ToBound(q, now));
    var sel := TakeLimit(f, Limit(q));
    FilterRangeIsSubsequence(logs, FromBound(q), ToBound(q, now));
    PrefixIsSubsequence(f, logs, |sel|);
    assert sel == f[..|sel|];
    if Limit(q) <= 0 {
      assert sel == f;
      FilterRangeCounts(logs, FromBound(q), ToBound(q, now));
    }
  }

  /** An unparsable `from` or `to` matches no entry, so the reply is empty. */
  lemma InvalidBoundSelectsNothing(users: map<string, User>, ids: IdRules, id: string, q: Query, now: int)
    requires ids.casts(id) && id in users
    requires FromBound(q).InvalidDate? || ToBound(q, now).InvalidDate?
    ensures QueryLogs(users, ids, id, q, now) == Logs(id, users[id].username, 0, [])
  {
    var f := FilterRange(users[id].logs, FromBound(q), ToBound(q, now));
    assert f == [] || InRange(f[0].date, FromBound(q), ToBound(q, now));
    assert Selected(users[id].logs, q, now) == [];
  }

  /** Filtering a log with one more entry at its end. */
  lemma {:induction false} FilterRangeAppend(s: seq<LogEntry>, e: LogEntry, from: Bound, to: Bound)
    ensures FilterRange(s + [e], from, to) == FilterRange(s, from, to) + Kept(e, from, to)
  {
    var t := s + [e];
    if s == [] {
      assert t == [e] && t[1..] == [];
    } else {
      assert t[0] == s[0] && t[1..] == s[1..] + [e];
      FilterRangeAppend(s[1..], e, from, to);
      calc {
        FilterRange(t, from, to);
        Kept(s[0], from, to) + FilterRange(s[1..] + [e], from, to);
        Kept(s[0], from, to) + (FilterRange(s[1..], from, to) + Kept(e, from, to));
        (Kept(s[0], from, to) + FilterRange(s[1..], from, to)) + Kept(e, from, to);
      }
    }
  }
}
