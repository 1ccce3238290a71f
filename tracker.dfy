/**
 * The exercise tracker's in-memory store and its four request handlers:
 * create a user, list users, log an exercise, and read a user's exercise
 * log filtered by date window and truncated to a limit.
 *
 * What the handlers take from outside is passed in: the new user's id
 * (a timestamp in the service), the current time, and the results of the
 * JavaScript date and integer parsers.
 */
module Tracker {
  import opened Wrappers
  import opened JsValues
  import opened JsArrays

  /** A user record `{username, _id}`; `username` is None when the request body had none. */
  datatype User = User(username: Option<string>, id: string)

  /**
   * An exercise record `{userId, description, duration, date}`. `duration`
   * is None where parseInt gave NaN; `date` is the stored date text, given
   * as the instant it parses back to.
   */
  datatype Exercise = Exercise(userId: string, description: Option<string>, duration: Option<int>, date: Instant)

  /** One entry of a log report: an exercise without its owner. */
  datatype LogEntry = LogEntry(description: Option<string>, duration: Option<int>, date: Instant)

  /** The body answering a logged exercise; `id` is the user's id. */
  datatype ExerciseReport = ExerciseReport(username: Option<string>, description: Option<string>,
                                           duration: Option<int>, date: Instant, id: string)

  /** The body answering a log query. */
  datatype LogReport = LogReport(username: Option<string>, count: nat, id: string, log: seq<LogEntry>)

  /** A handler's answer: a body, or the 404 "User not found" error. */
  datatype Reply<T> = Ok(body: T) | UserNotFound

  /** The query string of a log request: each parameter as received, if at all. */
  datatype LogQuery = LogQuery(from: Option<string>, to: Option<string>, limit: Option<string>)

  /** The JavaScript parsers the handlers call: `new Date(text)` and `parseInt(text)` (None for NaN). */
  datatype Parsers = Parsers(parseDate: string -> Instant, parseInt: string -> Option<int>)

  /** `users.find(user => user._id === id)`: the first user with that id. */
  function FindUserById(users: seq<User>, id: string): (r: Option<User>)
    ensures r.None? <==> forall i :: 0 <= i < |users| ==> users[i].id != id
    ensures r.Some? ==> r.value in users && r.value.id == id
  {
    if users == [] then None
    else if users[0].id == id then Some(users[0])
    else FindUserById(users[1..], id)
  }

  /**
   * The date an exercise is stored with: the request's date, or now when the
   * request has none (or an empty one), cut down to its day by
   * `toDateString()`.
   */
  function ExerciseDate(date: Option<string>, now: int, parseDate: string -> Instant): (d: Instant)
    ensures !Truthy(date) ==> d.At? && d.ms <= now < d.ms + MsPerDay
    ensures Truthy(date) ==> d.InvalidDate? == parseDate(date.value).InvalidDate?
    ensures Truthy(date) && d.At? ==> d.ms <= parseDate(date.value).ms < d.ms + MsPerDay
    ensures d.At? ==> d.ms % MsPerDay == 0
  {
    StartOfDay(if Truthy(date) then parseDate(date.value) else At(now))
  }

  /**
   * Whether an exercise belongs in the log of `id` for the window of `q`:
   * it is the user's, on or after `from` when `from` is given, and on or
   * before `to` when `to` is given.
   */
  ghost predicate InWindow(e: Exercise, id: string, q: LogQuery, ps: Parsers) {
    && e.userId == id
    && (Truthy(q.from) ==> OnOrAfter(e.date, ps.parseDate(q.from.value)))
    && (Truthy(q.to) ==> OnOrBefore(e.date, ps.parseDate(q.to.value)))
  }

  /** All exercises in the window, in the order they were logged. */
  ghost function Window(exercises: seq<Exercise>, id: string, q: LogQuery, ps: Parsers): seq<Exercise> {
    Filter(exercises, (e: Exercise) => InWindow(e, id, q, ps))
  }

  /** `exercise => exercise.userId === id`. */
  function OwnedBy(id: string): Exercise -> bool {
    (e: Exercise) => e.userId == id
  }

  /** `exercise => new Date(exercise.date) >= fromDate`. */
  function DatedOnOrAfter(fromDate: Instant): Exercise -> bool {
    (e: Exercise) => OnOrAfter(e.date, fromDate)
  }

  /** `exercise => new Date(exercise.date) <= toDate`. */
  function DatedOnOrBefore(toDate: Instant): Exercise -> bool {
    (e: Exercise) => OnOrBefore(e.date, toDate)
  }

  /**
   * The exercises a log query returns, computed as the handler does: keep
   * the user's exercises, then those on or after `from`, then those on or
   * before `to`, then the first `limit` of them.
   */
  function Select(exercises: seq<Exercise>, id: string, q: LogQuery, ps: Parsers): seq<Exercise> {
    var owned := Filter(exercises, OwnedBy(id));
    var afterFrom := if Truthy(q.from) then Filter(owned, DatedOnOrAfter(ps.parseDate(q.from.value))) else owned;
    var beforeTo := if Truthy(q.to) then Filter(afterFrom, DatedOnOrBefore(ps.parseDate(q.to.value))) else afterFrom;
    if Truthy(q.limit) then Slice(beforeTo, ps.parseInt(q.limit.value)) else beforeTo
  }

  /** `exercise => ({description, duration, date})`. */
  function Entry(e: Exercise): LogEntry {
    LogEntry(e.description, e.duration, e.date)
  }

  /** `es.map(Entry)`: one entry per exercise, in the same order. */
  function Entries(es: seq<Exercise>): (r: seq<LogEntry>)
    ensures |r| == |es|
    ensures forall i :: 0 <= i < |es| ==> r[i] == Entry(es[i])
  {
    if es == [] then [] else [Entry(es[0])] + Entries(es[1..])
  }

  /**
   * The two module-level arrays of the service: users and exercises, both
   * only ever appended to.
   */
  class Store {
    var users: seq<User>
    var exercises: seq<Exercise>

    /** The store when the service starts: no users, no exercises. */
    constructor ()
      ensures users == [] && exercises == []
    {
      users := [];
      exercises := [];
    }

    /** POST /api/users: append `{username, _id}` and answer with it. */
    method CreateUser(username: Option<string>, id: string) returns (u: User)
      modifies this
      ensures u.username == username && u.id == id
      ensures users == old(users) + [u]
      ensures exercises == old(exercises)
    {
      u := User(username, id);
      users := users + [u];
    }

    /** GET /api/users: every user, in the order they were created. */
    function ListUsers(): (r: seq<User>)
      reads this
      ensures |r| == |users| && forall i :: 0 <= i < |r| ==> r[i] == users[i]
    {
      users
    }

    /**
     * POST /api/users/:_id/exercises: with no user of that id, answer 404
     * and write nothing; otherwise append the exercise and answer with it
     * and the user's name and id.
     */
    method LogExercise(id: string, description: Option<string>, duration: Option<int>,
                       date: Option<string>, now: int, ps: Parsers)
      returns (r: Reply<ExerciseReport>)
      modifies this
      ensures users == old(users)
      ensures FindUserById(users, id).None? ==> r == UserNotFound && exercises == old(exercises)
      ensures FindUserById(users, id).Some? ==>
                var user := FindUserById(users, id).value;
                var e := Exercise(id, description, duration, ExerciseDate(date, now, ps.parseDate));
                && exercises == old(exercises) + [e]
                && r == Ok(ExerciseReport(user.username, e.description, e.duration, e.date, user.id))
    {
      var user := FindUserById(users, id);
      if user.None? {
        return UserNotFound;
      }
      var newExercise := Exercise(id, description, duration, ExerciseDate(date, now, ps.parseDate));
      exercises := exercises + [newExercise];
      r := Ok(ExerciseReport(user.value.username, newExercise.description, newExercise.duration,
                             newExercise.date, user.value.id));
    }

    /**
     * GET /api/users/:_id/logs: with no user of that id, the 404 error;
     * otherwise the user's name and id, the selected exercises as log
     * entries, and their number.
     */
    function GetLog(id: string, q: LogQuery, ps: Parsers): (r: Reply<LogReport>)
      reads this
      ensures r.UserNotFound? <==> FindUserById(users, id).None?
      ensures r.Ok? ==> r.body.username == FindUserById(users, id).value.username && r.body.id == id
      ensures r.Ok? ==> var selected := Select(exercises, id, q, ps);
                        && r.body.count == |r.body.log| == |selected|
                        && forall i :: 0 <= i < |selected| ==> r.body.log[i] == Entry(selected[i])
    {
      match FindUserById(users, id)
      case None => UserNotFound
      case Some(user) =>
        var userExercises := Select(exercises, id, q, ps);
        Ok(LogReport(user.username, |userExercises|, user.id, Entries(userExercises)))
    }
  }
}
