/**
 * The few JavaScript value semantics the tracker relies on: truthiness of a
 * request string, and Date objects reduced to their time value.
 */
module JsValues {
  import opened Wrappers

  /** `if (s)` on a request field: missing (undefined) and "" are falsy. */
  predicate Truthy(s: Option<string>) {
    s.Some? && s.value != ""
  }

  /** Milliseconds in one calendar day. */
  const MsPerDay: int := 86_400_000

  /**
   * The time value of a Date object: milliseconds since the epoch, or NaN
   * (an "Invalid Date").
   */
  datatype Instant = At(ms: int) | InvalidDate

  /**
   * `new Date(d.toDateString())`: the text keeps only weekday, month, day
   * and year, so re-parsing it gives midnight at the start of that day; an
   * Invalid Date prints as "Invalid Date", which parses back to NaN.
   */
  function StartOfDay(t: Instant): (d: Instant)
    ensures d.InvalidDate? <==> t.InvalidDate?
    ensures d.At? ==> d.ms % MsPerDay == 0 && d.ms <= t.ms < d.ms + MsPerDay
  {
    match t
    case At(ms) => At(ms - ms % MsPerDay)
    case InvalidDate => InvalidDate
  }

  /** `a >= b` on Dates: compares time values; a comparison with NaN is false. */
  predicate OnOrAfter(a: Instant, b: Instant) {
    a.At? && b.At? && a.ms >= b.ms
  }

  /** `a <= b` on Dates: compares time values; a comparison with NaN is false. */
  predicate OnOrBefore(a: Instant, b: Instant) {
    a.At? && b.At? && a.ms <= b.ms
  }

  /**
   * Printing a stored day and parsing it again gives the same day: the
   * date string a response carries is a fixed point of the round trip.
   */
  lemma StartOfDayIdempotent(t: Instant)
    ensures StartOfDay(StartOfDay(t)) == StartOfDay(t)
  {
    if t.At? {
      var d := StartOfDay(t).ms;
      assert d % MsPerDay == 0;
    }
  }

  /** A valid day used as both bounds of a date window lies inside it. */
  lemma DayWithinOwnBounds(d: Instant)
    requires d.At?
    ensures OnOrAfter(d, d) && OnOrBefore(d, d)
  {
  }
}
