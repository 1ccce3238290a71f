/** What the tracker's handlers promise, stated over the model in Tracker. */
module TrackerProperties {
  import opened Wrappers
  import opened JsValues
  import opened JsArrays
  import opened Tracker

  /**
   * The handler's filter chain selects exactly the exercises in the query's
   * window, in logged order, cut to `limit` when one is given.
   */
  lemma SelectIsWindow(exercises: seq<Exercise>, id: string, q: LogQuery, ps: Parsers)
    ensures Select(exercises, id, q, ps)
            == if Truthy(q.limit) then Slice(Window(exercises, id, q, ps), ps.parseInt(q.limit.value))
               else Window(exercises, id, q, ps)
  {
    var owned := OwnedBy(id);
    var kept := owned;
    var selected := Filter(exercises, owned);
    if Truthy(q.from) {
      var after := DatedOnOrAfter(ps.parseDate(q.from.value));
      var both := (e: Exercise) => kept(e) && after(e);
      FilterFilter(exercises, kept, after, both);
      selected, kept := Filter(selected, after), both;
    }
    if Truthy(q.to) {
      var before := DatedOnOrBefore(ps.parseDate(q.to.value));
      var both := (e: Exercise) => kept(e) && before(e);
      FilterFilter(exercises, kept, before, both);
      selected, kept := Filter(selected, before), both;
    }
    assert selected == Filter(exercises, kept);
    FilterExtensional(exercises, kept, (e: Exercise) => InWindow(e, id, q, ps));
  }

  /**
   * Every exercise a log query returns is one of the logged exercises, is
   * the requested user's and lies inside the `from`/`to` window.
   */
  lemma SelectInWindow(exercises: seq<Exercise>, id: string, q: LogQuery, ps: Parsers, i: nat)
    requires i < |Select(exercises, id, q, ps)|
    ensures var e := Select(exercises, id, q, ps)[i];
            && e in exercises
            && e.userId == id
            && (Truthy(q.from) ==> OnOrAfter(e.date, ps.parseDate(q.from.value)))
            && (Truthy(q.to) ==> OnOrBefore(e.date, ps.parseDate(q.to.value)))
  {
    SelectIsWindow(exercises, id, q, ps);
  }

  /** The log keeps the order in which the exercises were logged: it is never re-sorted. */
  lemma SelectIsSubsequence(exercises: seq<Exercise>, id: string, q: LogQuery, ps: Parsers)
    ensures IsSubsequence(Select(exercises, id, q, ps), exercises)
  {
    SelectIsWindow(exercises, id, q, ps);
    var window := Window(exercises, id, q, ps);
    FilterIsSubsequence(exercises, (e: Exercise) => InWindow(e, id, q, ps));
    if Truthy(q.limit) {
      var selected := Select(exercises, id, q, ps);
      PrefixIsSubsequence(window, |selected|);
      SubsequenceTransitive(selected, window, exercises);
    }
  }

  /**
   * Without a limit the log holds every exercise of the user inside the
   * window, and nothing else.
   */
  lemma SelectWithoutLimit(exercises: seq<Exercise>, id: string, q: LogQuery, ps: Parsers, e: Exercise)
    requires !Truthy(q.limit)
    ensures e in Select(exercises, id, q, ps) <==> e in exercises && InWindow(e, id, q, ps)
  {
    SelectIsWindow(exercises, id, q, ps);
  }

  /**
   * Without a limit the log holds each matching exercise as many times as
   * it was logged: identical exercises logged twice both appear and both
   * count.
   */
  lemma SelectKeepsDuplicates(exercises: seq<Exercise>, id: string, q: LogQuery, ps: Parsers, e: Exercise)
    requires !Truthy(q.limit)
    ensures multiset(Select(exercises, id, q, ps))[e]
            == if InWindow(e, id, q, ps) then multiset(exercises)[e] else 0
  {
    SelectIsWindow(exercises, id, q, ps);
    FilterMultiplicity(exercises, (x: Exercise) => InWindow(x, id, q, ps), e);
  }

  /**
   * A limit keeps a prefix of the windowed exercises: the first n for a
   * non-negative n, none when it does not parse as a number, and all but
   * the last |n| for a negative n.
   */
  lemma SelectWithLimit(exercises: seq<Exercise>, id: string, q: LogQuery, ps: Parsers)
    requires Truthy(q.limit)
    ensures var window := Window(exercises, id, q, ps);
            var selected := Select(exercises, id, q, ps);
            match ps.parseInt(q.limit.value)
            case None => selected == []
            case Some(n) =>
              && (n >= 0 ==> selected == window[..if n < |window| then n else |window|])
              && (n < 0 ==> selected == window[..if |window| + n < 0 then 0 else |window| + n])
  {
    SelectIsWindow(exercises, id, q, ps);
  }

  /** Logging an exercise for one user leaves every other user's log as it was. */
  lemma OtherUsersLogUnchanged(exercises: seq<Exercise>, e: Exercise, id: string, q: LogQuery, ps: Parsers)
    requires e.userId != id
    ensures Select(exercises + [e], id, q, ps) == Select(exercises, id, q, ps)
  {
    SelectIsWindow(exercises, id, q, ps);
    SelectIsWindow(exercises + [e], id, q, ps);
    FilterAppend(exercises, e, (x: Exercise) => InWindow(x, id, q, ps));
  }

  /**
   * A new exercise inside the window shows up at the end of an unlimited
   * log; one outside it leaves the log as it was.
   */
  lemma LoggedExerciseJoinsLog(exercises: seq<Exercise>, e: Exercise, id: string, q: LogQuery, ps: Parsers)
    requires !Truthy(q.limit)
    ensures Select(exercises + [e], id, q, ps)
            == Select(exercises, id, q, ps) + (if InWindow(e, id, q, ps) then [e] else [])
  {
    SelectIsWindow(exercises, id, q, ps);
    SelectIsWindow(exercises + [e], id, q, ps);
    FilterAppend(exercises, e, (x: Exercise) => InWindow(x, id, q, ps));
  }

  /**
   * An exercise stored with an Invalid Date is dropped by every query that
   * gives a `from` or a `to`: a comparison with NaN is false.
   */
  lemma InvalidDateNeverInBoundedLog(exercises: seq<Exercise>, id: string, q: LogQuery, ps: Parsers, e: Exercise)
    requires e.date.InvalidDate?
    requires Truthy(q.from) || Truthy(q.to)
    ensures e !in Select(exercises, id, q, ps)
  {
    SelectIsWindow(exercises, id, q, ps);
  }

  /**
   * The date an exercise was answered with, sent back as both `from` and
   * `to`, selects that exercise again: the date text parses to the stored
   * day, which lies inside its own bounds.
   */
  lemma AnsweredDateSelectsExercise(exercises: seq<Exercise>, e: Exercise, q: LogQuery, ps: Parsers)
    requires e in exercises && e.date.At?
    requires Truthy(q.from) && ps.parseDate(q.from.value) == e.date
    requires Truthy(q.to) && ps.parseDate(q.to.value) == e.date
    requires !Truthy(q.limit)
    ensures e in Select(exercises, e.userId, q, ps)
  {
    DayWithinOwnBounds(e.date);
    SelectWithoutLimit(exercises, e.userId, q, ps, e);
  }

  /** With duplicate ids, the lookup answers the earliest user created with that id. */
  lemma {:induction false} FindUserByIdEarliest(users: seq<User>, id: string, i: nat)
    requires i < |users| && users[i].id == id
    requires forall j :: 0 <= j < i ==> users[j].id != id
    ensures FindUserById(users, id) == Some(users[i])
  {
    if i > 0 {
      FindUserByIdEarliest(users[1..], id, i - 1);
    }
  }

  /**
   * Creating a user never changes whom an existing id resolves to; an id
   * that was unknown resolves to the new user exactly when the ids match.
   */
  lemma {:induction false} FindUserByIdAfterCreate(users: seq<User>, u: User, id: string)
    ensures FindUserById(users + [u], id)
            == if FindUserById(users, id).Some? then FindUserById(users, id)
               else if u.id == id then Some(u) else None
  {
    if users == [] {
      assert [u][1..] == [];
    } else {
      assert (users + [u])[1..] == users[1..] + [u];
      FindUserByIdAfterCreate(users[1..], u, id);
    }
  }

  /**
   * A client of the store: two users with the same name are two records,
   * listed in creation order; an exercise for an unknown id is refused and
   * stores nothing; one for a known id is stored and answered with that
   * user's name and id.
   */
  method CreateAndLogScenario(now: int, ps: Parsers) {
    var store := new Store();
    var first := store.CreateUser(Some("ann"), "1");
    var second := store.CreateUser(Some("ann"), "2");
    assert store.ListUsers() == [first, second];
    var refused := store.LogExercise("3", Some("run"), Some(30), None, now, ps);
    assert refused == UserNotFound && store.exercises == [];
    assert FindUserById(store.users, "2") == Some(second) by {
      FindUserByIdEarliest(store.users, "2", 1);
    }
    var logged := store.LogExercise("2", Some("run"), Some(30), Some(""), now, ps);
    assert logged.Ok? && logged.body.username == Some("ann") && logged.body.id == "2";
    assert |store.exercises| == 1 && store.exercises[0].date == StartOfDay(At(now));
  }
}
