/**
 * The downstream event-processing context, seen only through the two
 * operations the replay engine calls on it (`publish` and `advanceTime`).
 * Its evaluation of rules is not modelled: the context records what it was
 * given, in order, and keeps the clock `advanceTime` sets.
 */
module Runtime {
  import opened Events

  /** One call the replay engine made on the context. */
  datatype Action = Published(event: RemoteEvent) | Advanced(instant: int)

  /** The event of a `publish` call, none for any other call. */
  function EventOf(a: Action): seq<RemoteEvent>
  {
    if a.Published? then [a.event] else []
  }

  /** The instant of an `advanceTime` call, none for any other call. */
  function InstantOf(a: Action): seq<int>
  {
    if a.Advanced? then [a.instant] else []
  }

  /** The events handed to `publish`, in order. */
  function PublishedEvents(trace: seq<Action>): (r: seq<RemoteEvent>)
    ensures |r| <= |trace|
  {
    if trace == [] then [] else EventOf(trace[0]) + PublishedEvents(trace[1..])
  }

  /** The instants handed to `advanceTime`, in order. */
  function Advances(trace: seq<Action>): (r: seq<int>)
    ensures |r| <= |trace|
  {
    if trace == [] then [] else InstantOf(trace[0]) + Advances(trace[1..])
  }

  /** The events published by two runs in a row are those of the first, then those of the second. */
  lemma {:induction false} PublishedAppend(s: seq<Action>, t: seq<Action>)
    ensures PublishedEvents(s + t) == PublishedEvents(s) + PublishedEvents(t)
  {
    if s == [] {
      assert s + t == t;
    } else {
      var st := s + t;
      assert st[0] == s[0];
      assert st[1..] == s[1..] + t;
      PublishedAppend(s[1..], t);
      var head, rest, tail := EventOf(s[0]), PublishedEvents(s[1..]), PublishedEvents(t);
      assert PublishedEvents(st) == head + (rest + tail);
      assert head + (rest + tail) == (head + rest) + tail;
    }
  }

  /** The clock advances of two runs in a row are those of the first, then those of the second. */
  lemma {:induction false} AdvancesAppend(s: seq<Action>, t: seq<Action>)
    ensures Advances(s + t) == Advances(s) + Advances(t)
  {
    if s == [] {
      assert s + t == t;
    } else {
      var st := s + t;
      assert st[0] == s[0];
      assert st[1..] == s[1..] + t;
      AdvancesAppend(s[1..], t);
      var head, rest, tail := InstantOf(s[0]), Advances(s[1..]), Advances(t);
      assert Advances(st) == head + (rest + tail);
      assert head + (rest + tail) == (head + rest) + tail;
    }
  }

  /** The context a replay publishes into; `trace` is the log of calls made on it. */
  class Context {
    ghost var trace: seq<Action>
    var clock: int

    /** `Context.create(timeProvider)`: the clock starts at the provider's initial time. */
    constructor Create(initialTime: int)
      ensures trace == [] && clock == initialTime
    {
      trace := [];
      clock := initialTime;
    }

    /** `publish(event)`: hands one event to the context; the clock does not move. */
    method Publish(e: RemoteEvent)
      modifies this
      ensures trace == old(trace) + [Published(e)]
      ensures clock == old(clock)
    {
      trace := trace + [Published(e)];
    }

    /** `advanceTime(instant)`: sets the context clock. */
    method AdvanceTime(instant: int)
      modifies this
      ensures trace == old(trace) + [Advanced(instant)]
      ensures clock == instant
    {
      trace := trace + [Advanced(instant)];
      clock := instant;
    }
  }
}
