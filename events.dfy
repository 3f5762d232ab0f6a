/**
 * Events replayed from the database and the two orderings of them
 * (Replay.java: timeFieldForOrdering, the two comparators and
 * EventTimeManager).  Instants are milliseconds since the epoch.
 */
module Events {

  /** The two kinds of stored events the replay engine reads. */
  datatype Kind = Trade | Book

  /**
   * A trade or a book snapshot: `time` is when it happened at the exchange,
   * `timeReceived` is when the recording system received it, `id` is the
   * entity's identity in the database.
   */
  datatype RemoteEvent = RemoteEvent(kind: Kind, id: nat, time: int, timeReceived: int)

  /** Any event a context can see; only remote events carry a receipt time. */
  datatype Event = Remote(remote: RemoteEvent) | Local(occurred: int)
  {
    /** `Event.getTime`: when the event happened. */
    function Time(): int
    {
      if Remote? then remote.time else occurred
    }
  }

  /** The event's timestamp used for filtering and sorting under the given ordering mode. */
  function EffectiveTime(orderByTimeReceived: bool, e: RemoteEvent): int
  {
    if orderByTimeReceived then e.timeReceived else e.time
  }

  /** The name of the stored column that the ordering mode selects. */
  function TimeFieldForOrdering(orderByTimeReceived: bool): (field: string)
    ensures IsTimeColumn(field)
    ensures orderByTimeReceived <==> field == "timeReceived"
  {
    if orderByTimeReceived then "timeReceived" else "time"
  }

  /** The two timestamp columns of the Trade and Book tables. */
  predicate IsTimeColumn(field: string)
  {
    field == "time" || field == "timeReceived"
  }

  /** The value of a timestamp column of a stored event, as a query reads it. */
  function Column(e: RemoteEvent, field: string): int
    requires IsTimeColumn(field)
  {
    if field == "time" then e.time else e.timeReceived
  }

  /** The column the ordering mode names holds exactly the effective timestamp. */
  lemma ColumnOfOrderingField(orderByTimeReceived: bool, e: RemoteEvent)
    ensures Column(e, TimeFieldForOrdering(orderByTimeReceived)) == EffectiveTime(orderByTimeReceived, e)
  {
  }

  /** `Instant.compareTo` on two instants: -1, 0 or 1. */
  function CompareInstants(x: int, y: int): (r: int)
    ensures r == -1 || r == 0 || r == 1
    ensures r < 0 <==> x < y
    ensures r == 0 <==> x == y
  {
    if x < y then -1 else if x == y then 0 else 1
  }

  /** `timeReceivedComparator`: orders events by their receipt time. */
  function TimeReceivedCompare(a: RemoteEvent, b: RemoteEvent): (r: int)
    ensures r < 0 <==> a.timeReceived < b.timeReceived
    ensures r == 0 <==> a.timeReceived == b.timeReceived
    ensures r > 0 <==> a.timeReceived > b.timeReceived
  {
    CompareInstants(a.timeReceived, b.timeReceived)
  }

  /** `timeHappenedComparator`: orders events by their occurrence time. */
  function TimeHappenedCompare(a: RemoteEvent, b: RemoteEvent): (r: int)
    ensures r < 0 <==> a.time < b.time
    ensures r == 0 <==> a.time == b.time
    ensures r > 0 <==> a.time > b.time
  {
    CompareInstants(a.time, b.time)
  }

  /** The comparator `queryEvents` sorts with under the given ordering mode. */
  function OrderingCompare(orderByTimeReceived: bool, a: RemoteEvent, b: RemoteEvent): int
  {
    if orderByTimeReceived then TimeReceivedCompare(a, b) else TimeHappenedCompare(a, b)
  }

  /**
   * The comparator of each mode agrees with comparing effective timestamps,
   * so sorting with it is sorting by `EffectiveTime`; it is also antisymmetric.
   */
  lemma ComparatorMatchesEffectiveTime(orderByTimeReceived: bool, a: RemoteEvent, b: RemoteEvent)
    ensures OrderingCompare(orderByTimeReceived, a, b) <= 0
        <==> EffectiveTime(orderByTimeReceived, a) <= EffectiveTime(orderByTimeReceived, b)
    ensures OrderingCompare(orderByTimeReceived, a, b) == 0
        <==> EffectiveTime(orderByTimeReceived, a) == EffectiveTime(orderByTimeReceived, b)
    ensures OrderingCompare(orderByTimeReceived, a, b) == -OrderingCompare(orderByTimeReceived, b, a)
  {
  }

  /**
   * `EventTimeManager.nextTime`: the receipt time when ordering by receipt
   * time and the event is remote, the occurrence time otherwise.
   */
  function NextTime(orderByTimeReceived: bool, e: Event): (t: int)
    ensures e.Remote? ==> t == EffectiveTime(orderByTimeReceived, e.remote)
    ensures e.Local? ==> t == e.occurred
    ensures !orderByTimeReceived ==> t == e.Time()
  {
    if orderByTimeReceived && e.Remote? then e.remote.timeReceived else e.Time()
  }
}
