/**
 * Range resolution (Replay.java:28-46 and 126-151): the replay interval is
 * either given, or bounded by the earliest and latest stored timestamp of
 * the selected column over both tables.
 */
module Ranges {
  import opened Events
  import opened Wrappers
  import opened Store

  /** A Joda interval: `start <= end`, instants in milliseconds. */
  datatype Interval = Interval(start: int, end: int)

  /** `new Interval(start, end)` throws when the end lies before the start. */
  datatype RangeError = EndBeforeStart

  /** The rule of `getEventsStart`: null only when both minimums are null, else the earlier one. */
  function EarlierOf(bookStart: Option<int>, tradeStart: Option<int>): (r: Option<int>)
    ensures r.None? <==> bookStart.None? && tradeStart.None?
    ensures r.Some? ==> r == bookStart || r == tradeStart
    ensures r.Some? && bookStart.Some? ==> r.value <= bookStart.value
    ensures r.Some? && tradeStart.Some? ==> r.value <= tradeStart.value
  {
    if bookStart.None? && tradeStart.None? then None
    else if bookStart.None? then tradeStart
    else if tradeStart.None? then bookStart
    else if tradeStart.value < bookStart.value then tradeStart else bookStart
  }

  /** The rule of `getEventsEnd`: null only when both maximums are null, else the later one. */
  function LaterOf(bookEnd: Option<int>, tradeEnd: Option<int>): (r: Option<int>)
    ensures r.None? <==> bookEnd.None? && tradeEnd.None?
    ensures r.Some? ==> r == bookEnd || r == tradeEnd
    ensures r.Some? && bookEnd.Some? ==> bookEnd.value <= r.value
    ensures r.Some? && tradeEnd.Some? ==> tradeEnd.value <= r.value
  {
    if bookEnd.None? && tradeEnd.None? then None
    else if bookEnd.None? then tradeEnd
    else if tradeEnd.None? then bookEnd
    else if tradeEnd.value > bookEnd.value then tradeEnd else bookEnd
  }

  /** `getEventsStart`: the earliest effective timestamp over trades and books, null when both are empty. */
  function GetEventsStart(db: Database, recv: bool): (r: Option<int>)
    ensures r.None? <==> db.trades == [] && db.books == []
    ensures r.Some? ==> (exists e :: e in db.trades + db.books && EffectiveTime(recv, e) == r.value)
    ensures r.Some? ==> forall e :: e in db.trades + db.books ==> r.value <= EffectiveTime(recv, e)
  {
    var field := TimeFieldForOrdering(recv);
    var r := EarlierOf(MinOf(db.books, field), MinOf(db.trades, field));
    assert forall e :: Column(e, field) == EffectiveTime(recv, e);
    r
  }

  /** `getEventsEnd`: the latest effective timestamp over trades and books, null when both are empty. */
  function GetEventsEnd(db: Database, recv: bool): (r: Option<int>)
    ensures r.None? <==> db.trades == [] && db.books == []
    ensures r.Some? ==> (exists e :: e in db.trades + db.books && EffectiveTime(recv, e) == r.value)
    ensures r.Some? ==> forall e :: e in db.trades + db.books ==> EffectiveTime(recv, e) <= r.value
  {
    var field := TimeFieldForOrdering(recv);
    var r := LaterOf(MaxOf(db.books, field), MaxOf(db.trades, field));
    assert forall e :: Column(e, field) == EffectiveTime(recv, e);
    r
  }

  /**
   * `new Interval(start, end)` with Joda's convention that a null instant
   * means the current time `now`.
   */
  function MakeInterval(start: Option<int>, end: Option<int>, now: int): (r: Result<Interval, RangeError>)
    ensures r.Ok? <==> start.GetOr(now) <= end.GetOr(now)
    ensures r.Ok? ==> r.value == Interval(start.GetOr(now), end.GetOr(now))
  {
    var s, e := start.GetOr(now), end.GetOr(now);
    if e < s then Err(EndBeforeStart) else Ok(Interval(s, e))
  }

  /** `Replay.all`: from the earliest to the latest stored timestamp. */
  function All(db: Database, recv: bool, now: int): (r: Result<Interval, RangeError>)
    ensures r.Ok?
    ensures db.trades == [] && db.books == [] ==> r.value == Interval(now, now)
    ensures db.trades + db.books != [] ==> exists e :: e in db.trades + db.books && EffectiveTime(recv, e) == r.value.start
    ensures db.trades + db.books != [] ==> exists e :: e in db.trades + db.books && EffectiveTime(recv, e) == r.value.end
    ensures forall e :: e in db.trades + db.books ==> r.value.start <= EffectiveTime(recv, e) <= r.value.end
  {
    MakeInterval(GetEventsStart(db, recv), GetEventsEnd(db, recv), now)
  }

  /** `Replay.since`: from `start` to the latest stored timestamp. */
  function Since(start: int, db: Database, recv: bool, now: int): (r: Result<Interval, RangeError>)
    ensures r.Ok? ==> r.value.start == start
    ensures r.Ok? && db.trades == [] && db.books == [] ==> r.value.end == now
    ensures r.Ok? && db.trades + db.books != [] ==> exists e :: e in db.trades + db.books && EffectiveTime(recv, e) == r.value.end
    ensures r.Ok? ==> forall e :: e in db.trades + db.books && start <= EffectiveTime(recv, e) ==> EffectiveTime(recv, e) <= r.value.end
    ensures r.Err? <==> if db.trades == [] && db.books == [] then now < start
                        else forall e :: e in db.trades + db.books ==> EffectiveTime(recv, e) < start
  {
    MakeInterval(Some(start), GetEventsEnd(db, recv), now)
  }

  /** `Replay.until`: from the earliest stored timestamp to `end`. */
  function Until(end: int, db: Database, recv: bool, now: int): (r: Result<Interval, RangeError>)
    ensures r.Ok? ==> r.value.end == end
    ensures r.Ok? && db.trades == [] && db.books == [] ==> r.value.start == now
    ensures r.Ok? && db.trades + db.books != [] ==> exists e :: e in db.trades + db.books && EffectiveTime(recv, e) == r.value.start
    ensures r.Ok? ==> forall e :: e in db.trades + db.books && EffectiveTime(recv, e) <= end ==> r.value.start <= EffectiveTime(recv, e)
    ensures r.Err? <==> if db.trades == [] && db.books == [] then end < now
                        else forall e :: e in db.trades + db.books ==> end < EffectiveTime(recv, e)
  {
    MakeInterval(GetEventsStart(db, recv), Some(end), now)
  }

  /** `Replay.between`: the explicit interval, refused when it is reversed. */
  function Between(start: int, end: int): (r: Result<Interval, RangeError>)
    ensures r.Ok? <==> start <= end
    ensures r.Ok? ==> r.value == Interval(start, end)
  {
    MakeInterval(Some(start), Some(end), start)
  }
}
