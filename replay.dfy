/**
 * The replay engine of Replay.java: each window's events are fetched from
 * both tables, merged by a stable sort on the effective timestamp,
 * published in order, and followed by one clock advance to the window's
 * end.  Long intervals are cut into windows that are queued on a
 * single-thread executor, modelled as a FIFO queue drained in order.
 */
module ReplayEngine {
  import opened Events
  import opened Store
  import opened Ordering
  import opened Windows
  import opened Runtime
  import opened Ranges

  /** What `queryEvents` collects before sorting: trades in [start, stop], then books in [start, stop]. */
  function Fetched(db: Database, recv: bool, start: int, stop: int): (r: seq<RemoteEvent>)
    ensures forall e :: e in r <==> (e in db.trades || e in db.books) && start <= EffectiveTime(recv, e) <= stop
  {
    var field := TimeFieldForOrdering(recv);
    Select(db.trades, field, start, stop) + Select(db.books, field, start, stop)
  }

  /** The result of `queryEvents(start, stop)`: the fetched events, stably sorted by effective timestamp. */
  function MergedEvents(db: Database, recv: bool, start: int, stop: int): seq<RemoteEvent>
  {
    StableSort(recv, Fetched(db, recv, start, stop))
  }

  /**
   * `queryEvents` returns a sorted, stable permutation of the fetched trades
   * and books, which are exactly the stored events within [start, stop].
   */
  lemma MergedEventsCorrect(db: Database, recv: bool, start: int, stop: int)
    ensures Sorted(recv, MergedEvents(db, recv, start, stop))
    ensures SameKeyOrder(recv, MergedEvents(db, recv, start, stop), Fetched(db, recv, start, stop))
    ensures multiset(MergedEvents(db, recv, start, stop)) == multiset(Fetched(db, recv, start, stop))
    ensures forall e :: e in MergedEvents(db, recv, start, stop)
              <==> (e in db.trades || e in db.books) && start <= EffectiveTime(recv, e) <= stop
  {
    var fetched := Fetched(db, recv, start, stop);
    StableSortCorrect(recv, fetched);
    SameKeyOrderIsPermutation(recv, StableSort(recv, fetched), fetched);
    assert forall e :: e in StableSort(recv, fetched) <==> e in multiset(StableSort(recv, fetched));
  }

  /** Among events with the same effective timestamp, the fetched trades come before the fetched books. */
  lemma TradesBeforeBooksOnTies(db: Database, recv: bool, start: int, stop: int, k: int)
    ensures var field := TimeFieldForOrdering(recv);
      WithKey(recv, k, MergedEvents(db, recv, start, stop))
        == WithKey(recv, k, Select(db.trades, field, start, stop)) + WithKey(recv, k, Select(db.books, field, start, stop))
  {
    var field := TimeFieldForOrdering(recv);
    MergedEventsCorrect(db, recv, start, stop);
    WithKeyAppend(recv, k, Select(db.trades, field, start, stop), Select(db.books, field, start, stop));
  }

  /** The `publish` calls for a sequence of events, in order. */
  function Publishes(events: seq<RemoteEvent>): seq<Action>
  {
    seq(|events|, i requires 0 <= i < |events| => Published(events[i]))
  }

  /** One replay step: publish each event, then advance the clock to the step's end. */
  function StepTrace(events: seq<RemoteEvent>, stop: int): seq<Action>
  {
    Publishes(events) + [Advanced(stop)]
  }

  /** Publishing one more event extends the calls by that one `publish`. */
  lemma PublishesSnoc(events: seq<RemoteEvent>, i: nat)
    requires i < |events|
    ensures Publishes(events[..i + 1]) == Publishes(events[..i]) + [Published(events[i])]
  {
    var p, q := Publishes(events[..i + 1]), Publishes(events[..i]) + [Published(events[i])];
    forall n | 0 <= n < i + 1 ensures p[n] == q[n] {
      assert events[..i + 1][n] == events[n];
      if n < i {
        assert events[..i][n] == events[n];
      }
    }
  }

  /** A step publishes exactly its events, in order, and advances the clock exactly once, last, to its end. */
  lemma {:induction false} StepTraceShape(events: seq<RemoteEvent>, stop: int)
    ensures PublishedEvents(StepTrace(events, stop)) == events
    ensures Advances(StepTrace(events, stop)) == [stop]
    ensures StepTrace(events, stop)[|StepTrace(events, stop)| - 1] == Advanced(stop)
  {
    PublishedAppend(Publishes(events), [Advanced(stop)]);
    AdvancesAppend(Publishes(events), [Advanced(stop)]);
    PublishesShape(events);
    assert [Advanced(stop)][1..] == [];
  }

  lemma {:induction false} PublishesShape(events: seq<RemoteEvent>)
    ensures PublishedEvents(Publishes(events)) == events
    ensures Advances(Publishes(events)) == []
  {
    if events != [] {
      assert Publishes(events)[1..] == Publishes(events[1..]);
      PublishesShape(events[1..]);
    }
  }

  /** The calls one window makes on the context. */
  function WindowTrace(db: Database, recv: bool, w: Window): seq<Action>
  {
    StepTrace(MergedEvents(db, recv, w.start, w.stop), w.stop)
  }

  /** The events fetched and merged for each window, in window order. */
  function Batches(db: Database, recv: bool, ws: seq<Window>): (b: seq<seq<RemoteEvent>>)
    ensures |b| == |ws|
  {
    seq(|ws|, i requires 0 <= i < |ws| => MergedEvents(db, recv, ws[i].start, ws[i].stop))
  }

  /** The ends of the windows, in order. */
  function Stops(ws: seq<Window>): (s: seq<int>)
    ensures |s| == |ws|
  {
    seq(|ws|, i requires 0 <= i < |ws| => ws[i].stop)
  }

  /** All batches, one after the other. */
  function Concat(batches: seq<seq<RemoteEvent>>): seq<RemoteEvent>
  {
    if batches == [] then [] else batches[0] + Concat(batches[1..])
  }

  /** The calls of a series of steps, each publishing its batch and then advancing to its stop. */
  function StepsTrace(batches: seq<seq<RemoteEvent>>, stops: seq<int>): seq<Action>
    requires |batches| == |stops|
  {
    if batches == [] then [] else StepTrace(batches[0], stops[0]) + StepsTrace(batches[1..], stops[1..])
  }

  /** The calls a sequence of windows makes on the context, window after window. */
  function ReplayTrace(db: Database, recv: bool, ws: seq<Window>): seq<Action>
  {
    StepsTrace(Batches(db, recv, ws), Stops(ws))
  }

  /** The events a sequence of windows publishes, window after window. */
  function ReplayedEvents(db: Database, recv: bool, ws: seq<Window>): seq<RemoteEvent>
  {
    Concat(Batches(db, recv, ws))
  }

  /** The batches of all windows but the first are the batches of the windows after the first. */
  lemma BatchesTail(db: Database, recv: bool, ws: seq<Window>)
    requires ws != []
    ensures Batches(db, recv, ws)[1..] == Batches(db, recv, ws[1..])
  {
    var b, c := Batches(db, recv, ws)[1..], Batches(db, recv, ws[1..]);
    forall i | 0 <= i < |ws| - 1 ensures b[i] == c[i] {
      assert ws[1..][i] == ws[i + 1];
    }
  }

  /** The same for the window ends. */
  lemma StopsTail(ws: seq<Window>)
    requires ws != []
    ensures Stops(ws)[1..] == Stops(ws[1..])
  {
    var s, t := Stops(ws)[1..], Stops(ws[1..]);
    forall i | 0 <= i < |ws| - 1 ensures s[i] == t[i] {
      assert ws[1..][i] == ws[i + 1];
    }
  }

  /** Replaying windows is replaying the first window, then the rest. */
  lemma ReplayTraceUnfold(db: Database, recv: bool, ws: seq<Window>)
    requires ws != []
    ensures ReplayTrace(db, recv, ws) == WindowTrace(db, recv, ws[0]) + ReplayTrace(db, recv, ws[1..])
  {
    var b, st := Batches(db, recv, ws), Stops(ws);
    BatchesTail(db, recv, ws);
    StopsTail(ws);
    assert b[0] == MergedEvents(db, recv, ws[0].start, ws[0].stop) && st[0] == ws[0].stop;
    assert StepsTrace(b, st) == StepTrace(b[0], st[0]) + StepsTrace(b[1..], st[1..]);
  }

  /** A series of steps publishes its batches in order and advances the clock once per step, to the stops in order. */
  lemma {:induction false} StepsTraceShape(batches: seq<seq<RemoteEvent>>, stops: seq<int>)
    requires |batches| == |stops|
    ensures PublishedEvents(StepsTrace(batches, stops)) == Concat(batches)
    ensures Advances(StepsTrace(batches, stops)) == stops
  {
    if batches != [] {
      var head := StepTrace(batches[0], stops[0]);
      StepsTraceShape(batches[1..], stops[1..]);
      StepTraceShape(batches[0], stops[0]);
      PublishedAppend(head, StepsTrace(batches[1..], stops[1..]));
      AdvancesAppend(head, StepsTrace(batches[1..], stops[1..]));
      assert stops == [stops[0]] + stops[1..];
    }
  }

  /** Each batch is sorted and lies within its window. */
  ghost predicate BatchesFit(recv: bool, batches: seq<seq<RemoteEvent>>, ws: seq<Window>)
  {
    && |batches| == |ws|
    && (forall i :: 0 <= i < |ws| ==> Sorted(recv, batches[i]))
    && (forall i, e :: 0 <= i < |ws| && e in batches[i] ==> ws[i].start <= EffectiveTime(recv, e) <= ws[i].stop)
  }

  /** Two sorted runs, the first entirely not later than the second, concatenate to a sorted run. */
  lemma SortedConcat(recv: bool, a: seq<RemoteEvent>, b: seq<RemoteEvent>, mid: int)
    requires Sorted(recv, a) && Sorted(recv, b)
    requires forall e :: e in a ==> EffectiveTime(recv, e) <= mid
    requires forall e :: e in b ==> mid <= EffectiveTime(recv, e)
    ensures Sorted(recv, a + b)
  {
    var s := a + b;
    forall i, j | 0 <= i <= j < |s| ensures EffectiveTime(recv, s[i]) <= EffectiveTime(recv, s[j]) {
      if i < |a| && |a| <= j {
        assert s[i] in a && s[j] in b;
      }
    }
  }

  /**
   * Sorted batches fitted to a chain of windows concatenate to a sorted
   * stream lying within the chain's span.
   */
  lemma {:induction false} ConcatSorted(recv: bool, batches: seq<seq<RemoteEvent>>, ws: seq<Window>)
    requires Chain(ws) && BatchesFit(recv, batches, ws)
    ensures Sorted(recv, Concat(batches))
    ensures ws != [] ==> forall e :: e in Concat(batches) ==>
              ws[0].start <= EffectiveTime(recv, e) <= ws[|ws| - 1].stop
  {
    if ws != [] {
      var rest, vs := batches[1..], ws[1..];
      assert BatchesFit(recv, rest, vs) by {
        forall i, e | 0 <= i < |vs| && e in rest[i]
          ensures vs[i].start <= EffectiveTime(recv, e) <= vs[i].stop
        {
          assert rest[i] == batches[i + 1];
        }
      }
      ConcatSorted(recv, rest, vs);
      if vs != [] {
        assert vs[|vs| - 1] == ws[|ws| - 1];
        ChainOrdered(ws, 0, |ws| - 1);
        SortedConcat(recv, batches[0], Concat(rest), ws[0].stop);
      } else {
        assert Concat(batches) == batches[0] + [];
      }
    }
  }

  /** An event of one batch is in the concatenation. */
  lemma {:induction false} ConcatContains(batches: seq<seq<RemoteEvent>>, i: nat, e: RemoteEvent)
    requires i < |batches| && e in batches[i]
    ensures e in Concat(batches)
  {
    if i > 0 {
      ConcatContains(batches[1..], i - 1, e);
    }
  }

  /** An event of the concatenation comes from one of the batches: batch i. */
  lemma {:induction false} ConcatMember(batches: seq<seq<RemoteEvent>>, e: RemoteEvent) returns (i: nat)
    requires e in Concat(batches)
    ensures i < |batches| && e in batches[i]
  {
    if e in batches[0] {
      i := 0;
    } else {
      var j := ConcatMember(batches[1..], e);
      assert batches[j + 1] == batches[1..][j];
      i := j + 1;
    }
  }

  /** The merged batches of any windows are sorted and lie within their windows. */
  lemma MergedBatchesFit(db: Database, recv: bool, ws: seq<Window>)
    ensures BatchesFit(recv, Batches(db, recv, ws), ws)
  {
    forall i | 0 <= i < |ws| ensures Sorted(recv, Batches(db, recv, ws)[i]) {
      MergedEventsCorrect(db, recv, ws[i].start, ws[i].stop);
    }
    forall i, e | 0 <= i < |ws| && e in Batches(db, recv, ws)[i]
      ensures ws[i].start <= EffectiveTime(recv, e) <= ws[i].stop
    {
      MergedEventsCorrect(db, recv, ws[i].start, ws[i].stop);
    }
  }

  /**
   * Every stored event whose effective timestamp lies between the interval
   * start and the end of the last planned window is among the replayed events.
   */
  lemma RunReplaysAll(db: Database, recv: bool, start: int, end: int, e: RemoteEvent)
    requires start <= end
    requires e in db.trades || e in db.books
    requires start <= EffectiveTime(recv, e) <= RunWindows(start, end)[|RunWindows(start, end)| - 1].stop
    ensures e in ReplayedEvents(db, recv, RunWindows(start, end))
  {
    var ws := RunWindows(start, end);
    RunWindowsChain(start, end);
    ChainCovers(ws, EffectiveTime(recv, e));
    var i :| 0 <= i < |ws| && ws[i].start <= EffectiveTime(recv, e) <= ws[i].stop;
    MergedEventsCorrect(db, recv, ws[i].start, ws[i].stop);
    ConcatContains(Batches(db, recv, ws), i, e);
  }

  /**
   * Conversely, every replayed event is a stored one whose effective
   * timestamp lies between the interval start and the end of the last window.
   */
  lemma RunReplaysOnly(db: Database, recv: bool, start: int, end: int, e: RemoteEvent)
    requires start <= end
    requires e in ReplayedEvents(db, recv, RunWindows(start, end))
    ensures e in db.trades || e in db.books
    ensures start <= EffectiveTime(recv, e) <= RunWindows(start, end)[|RunWindows(start, end)| - 1].stop
  {
    RunWindowsChain(start, end);
    ReplayedWithinChain(db, recv, RunWindows(start, end), e);
  }

  /** An event replayed over a chain of windows is stored and lies within the chain's span. */
  lemma ReplayedWithinChain(db: Database, recv: bool, ws: seq<Window>, e: RemoteEvent)
    requires Chain(ws) && e in ReplayedEvents(db, recv, ws)
    ensures e in db.trades || e in db.books
    ensures ws != [] && ws[0].start <= EffectiveTime(recv, e) <= ws[|ws| - 1].stop
  {
    var i := ConcatMember(Batches(db, recv, ws), e);
    BatchMember(db, recv, ws, i, e);
    WithinChainSpan(ws, i, EffectiveTime(recv, e));
  }

  /** An instant within one window of a chain lies within the chain's span. */
  lemma WithinChainSpan(ws: seq<Window>, i: nat, t: int)
    requires Chain(ws) && i < |ws| && ws[i].start <= t <= ws[i].stop
    ensures ws[0].start <= t <= ws[|ws| - 1].stop
  {
    ChainOrdered(ws, 0, i);
    ChainOrdered(ws, i, |ws| - 1);
  }

  /** An event of one window's batch is stored and lies within the window. */
  lemma BatchMember(db: Database, recv: bool, ws: seq<Window>, i: nat, e: RemoteEvent)
    requires i < |ws| && e in Batches(db, recv, ws)[i]
    ensures e in db.trades || e in db.books
    ensures ws[i].start <= EffectiveTime(recv, e) <= ws[i].stop
  {
    MergedEventsCorrect(db, recv, ws[i].start, ws[i].stop);
  }

  /** A run replays exactly the stored events between the interval start and the end of the last window. */
  lemma RunReplaysExactly(db: Database, recv: bool, start: int, end: int)
    requires start <= end
    ensures var ws := RunWindows(start, end);
      forall e :: e in ReplayedEvents(db, recv, ws)
                  <==> (e in db.trades || e in db.books) && start <= EffectiveTime(recv, e) <= ws[|ws| - 1].stop
  {
    var ws := RunWindows(start, end);
    var replayed, last := ReplayedEvents(db, recv, ws), ws[|ws| - 1].stop;
    forall e | e in replayed
      ensures (e in db.trades || e in db.books) && start <= EffectiveTime(recv, e) <= last
    {
      RunReplaysOnly(db, recv, start, end, e);
    }
    forall e | (e in db.trades || e in db.books) && start <= EffectiveTime(recv, e) <= last
      ensures e in replayed
    {
      RunReplaysAll(db, recv, start, end, e);
    }
  }

  /** A window's merged batch holds an event as often as it is stored when the window contains it, else not at all. */
  lemma MergedCount(db: Database, recv: bool, w: Window, e: RemoteEvent)
    ensures multiset(MergedEvents(db, recv, w.start, w.stop))[e]
              == if w.start <= EffectiveTime(recv, e) <= w.stop then multiset(db.trades + db.books)[e] else 0
  {
    var field := TimeFieldForOrdering(recv);
    MergedEventsCorrect(db, recv, w.start, w.stop);
    SelectCounts(db.trades, field, w.start, w.stop, e);
    SelectCounts(db.books, field, w.start, w.stop, e);
    ColumnOfOrderingField(recv, e);
  }

  /**
   * Batches that each hold an event n times when their window contains
   * instant t, and not at all otherwise, hold it together n times per
   * window containing t.
   */
  lemma {:induction false} ConcatCounts(batches: seq<seq<RemoteEvent>>, ws: seq<Window>, t: int, n: nat, e: RemoteEvent)
    requires |batches| == |ws|
    requires forall i :: 0 <= i < |ws| ==> multiset(batches[i])[e] == if ws[i].start <= t <= ws[i].stop then n else 0
    ensures multiset(Concat(batches))[e] == CountIn(ws, t) * n
  {
    if ws != [] {
      var rest, tail := batches[1..], ws[1..];
      forall i | 0 <= i < |tail|
        ensures multiset(rest[i])[e] == if tail[i].start <= t <= tail[i].stop then n else 0
      {
        assert rest[i] == batches[i + 1] && tail[i] == ws[i + 1];
      }
      ConcatCounts(rest, tail, t, n, e);
      var head, c := multiset(batches[0])[e], CountIn(tail, t);
      assert Concat(batches) == batches[0] + Concat(rest);
      assert multiset(Concat(batches))[e] == head + c * n;
      if ws[0].start <= t <= ws[0].stop {
        assert CountIn(ws, t) == 1 + c && head == n;
        MulSuccessor(c, n);
      } else {
        assert CountIn(ws, t) == c && head == 0;
      }
    }
  }

  lemma MulSuccessor(c: nat, n: nat)
    ensures (1 + c) * n == n + c * n
  {
  }

  /**
   * Replaying windows one after another publishes each stored event once
   * per window that contains its effective timestamp, for each stored copy.
   */
  lemma ReplayedCounts(db: Database, recv: bool, ws: seq<Window>, e: RemoteEvent)
    ensures multiset(ReplayedEvents(db, recv, ws))[e]
              == CountIn(ws, EffectiveTime(recv, e)) * multiset(db.trades + db.books)[e]
  {
    var b := Batches(db, recv, ws);
    var n, t := multiset(db.trades + db.books)[e], EffectiveTime(recv, e);
    forall i | 0 <= i < |ws| ensures multiset(b[i])[e] == if ws[i].start <= t <= ws[i].stop then n else 0 {
      MergedCount(db, recv, ws[i], e);
    }
    ConcatCounts(b, ws, t, n, e);
  }

  /**
   * How often a run publishes each event: once per planned window containing
   * its effective timestamp, for each stored copy; so exactly as often as it
   * is stored when that timestamp lies in the run's span and is not the end
   * of an inner window.
   */
  lemma RunReplaysCounts(db: Database, recv: bool, start: int, end: int)
    requires start <= end
    ensures var ws := RunWindows(start, end);
      && (forall e :: multiset(ReplayedEvents(db, recv, ws))[e]
                        == CountIn(ws, EffectiveTime(recv, e)) * multiset(db.trades + db.books)[e])
      && (forall e :: start <= EffectiveTime(recv, e) <= ws[|ws| - 1].stop
                      && (forall i :: 0 <= i < |ws| - 1 ==> ws[i].stop != EffectiveTime(recv, e))
                      ==> multiset(ReplayedEvents(db, recv, ws))[e] == multiset(db.trades + db.books)[e])
  {
    var ws := RunWindows(start, end);
    RunWindowsChain(start, end);
    forall e ensures multiset(ReplayedEvents(db, recv, ws))[e]
                       == CountIn(ws, EffectiveTime(recv, e)) * multiset(db.trades + db.books)[e]
    {
      ReplayedCounts(db, recv, ws, e);
    }
    forall e | start <= EffectiveTime(recv, e) <= ws[|ws| - 1].stop
               && (forall i :: 0 <= i < |ws| - 1 ==> ws[i].stop != EffectiveTime(recv, e))
      ensures multiset(ReplayedEvents(db, recv, ws))[e] == multiset(db.trades + db.books)[e]
    {
      CountInOnce(ws, EffectiveTime(recv, e));
    }
  }

  /** The replayed events of the planned windows form one sorted stream. */
  lemma RunReplaysSorted(db: Database, recv: bool, start: int, end: int)
    requires start <= end
    ensures Sorted(recv, ReplayedEvents(db, recv, RunWindows(start, end)))
  {
    var ws := RunWindows(start, end);
    RunWindowsChain(start, end);
    MergedBatchesFit(db, recv, ws);
    ConcatSorted(recv, Batches(db, recv, ws), ws);
  }

  /** The last window `run` replays ends no earlier than the interval end. */
  lemma RunWindowsReachEnd(start: int, end: int)
    requires start <= end
    ensures end <= RunWindows(start, end)[|RunWindows(start, end)| - 1].stop
  {
    if end - start > TimeStep {
      PlanWindowsBounds(start, end, TimeStep);
    }
  }

  /**
   * What a whole run delivers, for the windows `run` plans: exactly the
   * stored events whose effective timestamp lies between the interval start
   * and the end of the last window are published (the last window may end
   * after `end`); the published stream is sorted; the clock is advanced once
   * per window, to the window ends, in non-decreasing order, each advance
   * equal to the next window's start, and the last one not before `end`.
   */
  lemma RunGuarantees(db: Database, recv: bool, start: int, end: int)
    requires start <= end
    ensures var ws := RunWindows(start, end);
      var trace := ReplayTrace(db, recv, ws);
      && (forall e :: e in PublishedEvents(trace)
                      <==> (e in db.trades || e in db.books) && start <= EffectiveTime(recv, e) <= ws[|ws| - 1].stop)
      && (forall e :: start <= EffectiveTime(recv, e) <= ws[|ws| - 1].stop
                      && (forall i :: 0 <= i < |ws| - 1 ==> ws[i].stop != EffectiveTime(recv, e))
                      ==> multiset(PublishedEvents(trace))[e] == multiset(db.trades + db.books)[e])
      && (forall e :: multiset(PublishedEvents(trace))[e]
                        == CountIn(ws, EffectiveTime(recv, e)) * multiset(db.trades + db.books)[e])
      && Sorted(recv, PublishedEvents(trace))
      && |Advances(trace)| == |ws|
      && (forall i :: 0 <= i < |ws| ==> Advances(trace)[i] == ws[i].stop)
      && (forall i :: 0 <= i < |ws| - 1 ==> Advances(trace)[i] <= Advances(trace)[i + 1])
      && (forall i :: 0 <= i < |ws| - 1 ==> Advances(trace)[i] == ws[i + 1].start)
      && end <= Advances(trace)[|ws| - 1]
  {
    var ws := RunWindows(start, end);
    var trace := ReplayTrace(db, recv, ws);
    StepsTraceShape(Batches(db, recv, ws), Stops(ws));
    assert PublishedEvents(trace) == ReplayedEvents(db, recv, ws);
    assert Advances(trace) == Stops(ws);
    RunReplaysExactly(db, recv, start, end);
    RunReplaysCounts(db, recv, start, end);
    RunReplaysSorted(db, recv, start, end);
    RunWindowsChain(start, end);
    RunWindowsReachEnd(start, end);
  }

  /**
   * The planned windows are not clamped to the interval: with an interval one
   * millisecond longer than a step, the second window runs to two steps, and
   * a stored trade at two steps, after the interval end, is published.
   */
  lemma RunPublishesPastEnd()
    ensures var e := RemoteEvent(Trade, 0, 2 * TimeStep, 2 * TimeStep);
      var trace := ReplayTrace(Database([e], []), false, RunWindows(0, TimeStep + 1));
      e in PublishedEvents(trace) && EffectiveTime(false, e) > TimeStep + 1
  {
    var e := RemoteEvent(Trade, 0, 2 * TimeStep, 2 * TimeStep);
    var db := Database([e], []);
    var ws := RunWindows(0, TimeStep + 1);
    assert PlanWindows(2 * TimeStep, TimeStep + 1, TimeStep) == [];
    assert PlanWindows(TimeStep, TimeStep + 1, TimeStep) == [Window(TimeStep, 2 * TimeStep)];
    assert ws == [Window(0, TimeStep)] + PlanWindows(TimeStep, TimeStep + 1, TimeStep);
    RunGuarantees(db, false, 0, TimeStep + 1);
  }

  /**
   * With nothing stored, `all()` gives the now-to-now interval, and running
   * it replays one inline window that publishes nothing and advances the
   * clock to now.
   */
  lemma EmptyStoreReplay(recv: bool, now: int)
    ensures var db := Database([], []);
      var interval := All(db, recv, now).value;
      && interval == Interval(now, now)
      && RunWindows(interval.start, interval.end) == [Window(now, now)]
      && ReplayTrace(db, recv, RunWindows(interval.start, interval.end)) == [Advanced(now)]
  {
    var db := Database([], []);
    ReplayTraceSingle(db, recv, Window(now, now));
    assert Fetched(db, recv, now, now) == [];
    assert Publishes(MergedEvents(db, recv, now, now)) == [];
  }

  /**
   * The fetch filter is closed on both ends, so a stored event exactly on
   * the boundary between two planned windows is fetched, and published, by
   * both of them: twice for each stored copy.
   */
  lemma BoundaryEventReplayedTwice(db: Database, recv: bool, start: int, end: int, i: nat, e: RemoteEvent)
    requires start <= end
    requires i + 1 < |RunWindows(start, end)|
    requires e in db.trades || e in db.books
    requires EffectiveTime(recv, e) == RunWindows(start, end)[i].stop
    ensures multiset(ReplayedEvents(db, recv, RunWindows(start, end)))[e] == 2 * multiset(db.trades + db.books)[e]
    ensures multiset(ReplayedEvents(db, recv, RunWindows(start, end)))[e] >= 2
  {
    var ws := RunWindows(start, end);
    RunWindowsChain(start, end);
    RunWindowsProper(start, end);
    BoundaryCount(db, recv, ws, i, e);
  }

  /** An event stored on the end of an inner window of a chain of proper windows is replayed twice per stored copy. */
  lemma BoundaryCount(db: Database, recv: bool, ws: seq<Window>, i: nat, e: RemoteEvent)
    requires Chain(ws) && Proper(ws) && i + 1 < |ws|
    requires e in db.trades || e in db.books
    requires EffectiveTime(recv, e) == ws[i].stop
    ensures multiset(ReplayedEvents(db, recv, ws))[e] == 2 * multiset(db.trades + db.books)[e]
    ensures multiset(ReplayedEvents(db, recv, ws))[e] >= 2
  {
    var n := multiset(db.trades + db.books)[e];
    CountInBoundary(ws, i);
    ReplayedCounts(db, recv, ws, e);
    assert e in multiset(db.trades + db.books);
  }

  /** The windows of the queued steps, in queue order. */
  function WindowsOf(tasks: seq<ReplayStepRunnable>): seq<Window>
  {
    seq(|tasks|, i requires 0 <= i < |tasks| => Window(tasks[i].start, tasks[i].stop))
  }

  /** Running window `done` of `todo` moves it from the replay still to come to the trace already made. */
  lemma ReplayTraceStep(db: Database, recv: bool, todo: seq<Window>, done: nat, before: seq<Action>, after: seq<Action>)
    requires done < |todo|
    requires after == before + WindowTrace(db, recv, todo[done])
    ensures before + ReplayTrace(db, recv, todo[done..]) == after + ReplayTrace(db, recv, todo[done + 1..])
  {
    var rest := todo[done..];
    assert rest[0] == todo[done] && rest[1..] == todo[done + 1..];
    ReplayTraceUnfold(db, recv, rest);
    var w, r := WindowTrace(db, recv, todo[done]), ReplayTrace(db, recv, todo[done + 1..]);
    assert before + (w + r) == (before + w) + r;
  }

  /** Replaying a single window makes exactly that window's calls. */
  lemma ReplayTraceSingle(db: Database, recv: bool, w: Window)
    ensures ReplayTrace(db, recv, [w]) == WindowTrace(db, recv, w)
  {
    ReplayTraceUnfold(db, recv, [w]);
    assert [w][1..] == [];
  }

  lemma WindowsOfSnoc(tasks: seq<ReplayStepRunnable>, task: ReplayStepRunnable)
    ensures WindowsOf(tasks + [task]) == WindowsOf(tasks) + [Window(task.start, task.stop)]
  {
  }

  lemma WindowsOfSuffix(tasks: seq<ReplayStepRunnable>, k: nat)
    requires k <= |tasks|
    ensures WindowsOf(tasks[k..]) == WindowsOf(tasks)[k..]
  {
  }

  /** A replay of stored events over one interval into its own context. */
  class Replay {
    const replayTimeInterval: Interval
    const orderByTimeReceived: bool
    const context: Context
    /** The stored trades and books; the replay only reads them. */
    const db: Database
    /** The single-thread executor's queue: submitted steps not yet run, oldest first. */
    var service: seq<ReplayStepRunnable>

    ghost predicate Valid()
      reads this
    {
      && replayTimeInterval.start <= replayTimeInterval.end
      && forall task :: task in service ==> task.replay == this
    }

    /**
     * `new Replay(interval, orderByTimeReceived)`: the context is created with
     * a time provider whose initial time is the interval start.
     */
    constructor (replayTimeInterval: Interval, orderByTimeReceived: bool, db: Database)
      requires replayTimeInterval.start <= replayTimeInterval.end
      ensures Valid() && service == []
      ensures this.replayTimeInterval == replayTimeInterval && this.orderByTimeReceived == orderByTimeReceived
      ensures this.db == db
      ensures fresh(context) && context.trace == [] && context.clock == replayTimeInterval.start
    {
      this.replayTimeInterval := replayTimeInterval;
      this.orderByTimeReceived := orderByTimeReceived;
      this.db := db;
      context := new Context.Create(replayTimeInterval.start);
      service := [];
    }

    /** `queryEvents`: fetch trades then books in [start, stop] and sort them stably by effective timestamp. */
    method QueryEvents(start: int, stop: int) returns (events: seq<RemoteEvent>)
      ensures events == MergedEvents(db, orderByTimeReceived, start, stop)
    {
      var field := TimeFieldForOrdering(orderByTimeReceived);
      var fetched := Select(db.trades, field, start, stop) + Select(db.books, field, start, stop);
      var a := new RemoteEvent[|fetched|](i requires 0 <= i < |fetched| => fetched[i]);
      assert a[..] == fetched;
      SortInPlace(orderByTimeReceived, a);
      events := a[..];
    }

    /** `replayStep`: publish the window's events in order, then advance the clock to its end. */
    method ReplayStep(start: int, stop: int)
      modifies context
      ensures context.trace == old(context.trace) + StepTrace(MergedEvents(db, orderByTimeReceived, start, stop), stop)
      ensures context.clock == stop
    {
      var events := QueryEvents(start, stop);
      var i := 0;
      while i < |events|
        invariant 0 <= i <= |events|
        invariant context.trace == old(context.trace) + Publishes(events[..i])
      {
        context.Publish(events[i]);
        PublishesSnoc(events, i);
        i := i + 1;
      }
      assert events[..i] == events;
      ghost var published := context.trace;
      context.AdvanceTime(stop);
      assert context.trace == old(context.trace) + (Publishes(events) + [Advanced(stop)]) by {
        assert context.trace == published + [Advanced(stop)];
      }
    }

    /**
     * `run`: an interval longer than one step is cut into windows that are
     * queued on a fresh single-thread executor and nothing is replayed yet;
     * a shorter one is replayed inline as one step and nothing is queued.
     */
    method Run()
      requires Valid()
      modifies this, context
      ensures Valid()
      ensures replayTimeInterval.end - replayTimeInterval.start > TimeStep ==>
                && WindowsOf(service) == RunWindows(replayTimeInterval.start, replayTimeInterval.end)
                && (forall task :: task in service ==> fresh(task))
                && context.trace == old(context.trace) && context.clock == old(context.clock)
      ensures replayTimeInterval.end - replayTimeInterval.start <= TimeStep ==>
                && service == []
                && context.trace == old(context.trace)
                     + ReplayTrace(db, orderByTimeReceived, RunWindows(replayTimeInterval.start, replayTimeInterval.end))
                && context.clock == replayTimeInterval.end
    {
      var start, end := replayTimeInterval.start, replayTimeInterval.end;
      if end - start > TimeStep {
        Submit(start, end);
      } else {
        service := [];
        ReplayStep(start, end);
        assert RunWindows(start, end) == [Window(start, end)];
        ReplayTraceSingle(db, orderByTimeReceived, Window(start, end));
      }
    }

    /**
     * The loop of `run` over a long interval: a fresh executor queue
     * receiving one step per window, starting at `start` and moving on by
     * one `TimeStep` while the window start is not after `end`.
     */
    method Submit(start: int, end: int)
      requires Valid()
      modifies this
      ensures Valid()
      ensures WindowsOf(service) == PlanWindows(start, end, TimeStep)
      ensures forall task :: task in service ==> fresh(task)
    {
      service := [];
      var now := start;
      while now <= end
        invariant Valid()
        invariant WindowsOf(service) + PlanWindows(now, end, TimeStep) == PlanWindows(start, end, TimeStep)
        invariant forall task :: task in service ==> fresh(task)
        decreases end - now + 1
      {
        var stepEnd := now + TimeStep;
        var task := new ReplayStepRunnable(now, stepEnd, this);
        ghost var planned, rest := WindowsOf(service), PlanWindows(stepEnd, end, TimeStep);
        assert PlanWindows(now, end, TimeStep) == [Window(now, stepEnd)] + rest;
        WindowsOfSnoc(service, task);
        assert (planned + [Window(now, stepEnd)]) + rest == planned + ([Window(now, stepEnd)] + rest);
        service := service + [task];
        now := stepEnd;
      }
      assert WindowsOf(service) + [] == WindowsOf(service);
    }

    /** The worker takes the oldest queued step off the queue and runs it to completion. */
    method RunNext()
      requires Valid() && service != []
      modifies this, context
      ensures Valid() && service == old(service)[1..]
      ensures context.trace == old(context.trace) + WindowTrace(db, orderByTimeReceived, WindowsOf(old(service))[0])
      ensures context.clock == WindowsOf(old(service))[0].stop
    {
      var task := service[0];
      assert task.replay == this;
      service := service[1..];
      task.Run();
    }

    /**
     * The executor's single worker: runs the queued steps one after the
     * other, oldest first, each to completion before the next starts.
     */
    method DrainService()
      requires Valid()
      modifies this, context
      ensures Valid() && service == []
      ensures context.trace == old(context.trace) + ReplayTrace(db, orderByTimeReceived, WindowsOf(old(service)))
      ensures old(service) != [] ==> context.clock == WindowsOf(old(service))[|old(service)| - 1].stop
      ensures old(service) == [] ==> context.clock == old(context.clock)
    {
      ghost var tasks := service;
      ghost var todo := WindowsOf(tasks);
      ghost var done := 0;
      while service != []
        invariant Valid()
        invariant 0 <= done <= |tasks| && service == tasks[done..]
        invariant old(context.trace) + ReplayTrace(db, orderByTimeReceived, todo)
               == context.trace + ReplayTrace(db, orderByTimeReceived, todo[done..])
        invariant done > 0 ==> context.clock == todo[done - 1].stop
        invariant done == 0 ==> context.clock == old(context.clock)
        decreases |service|
      {
        ghost var before := context.trace;
        WindowsOfSuffix(tasks, done);
        RunNext();
        ReplayTraceStep(db, orderByTimeReceived, todo, done, before, context.trace);
        assert service == tasks[done + 1..];
        done := done + 1;
      }
      assert todo[done..] == [];
    }

    /**
     * `run` followed by the executor finishing its queue: both strategies
     * produce the same calls on the context, those of replaying the windows
     * `run` plans, in order.
     */
    method RunAndDrain()
      requires Valid()
      modifies this, context
      ensures Valid() && service == []
      ensures context.trace == old(context.trace)
                + ReplayTrace(db, orderByTimeReceived, RunWindows(replayTimeInterval.start, replayTimeInterval.end))
      ensures context.clock
                == RunWindows(replayTimeInterval.start, replayTimeInterval.end)[|RunWindows(replayTimeInterval.start, replayTimeInterval.end)| - 1].stop
    {
      Run();
      DrainService();
    }
  }

  /** `ReplayStepRunnable`: one window's step, submitted to the executor. */
  class ReplayStepRunnable {
    const start: int
    const stop: int
    const replay: Replay

    constructor (start: int, stop: int, replay: Replay)
      ensures this.start == start && this.stop == stop && this.replay == replay
    {
      this.start := start;
      this.stop := stop;
      this.replay := replay;
    }

    /** Runs the step: the same calls on the replay's context as `replayStep(start, stop)`. */
    method Run()
      modifies replay.context
      ensures replay.context.trace
           == old(replay.context.trace) + WindowTrace(replay.db, replay.orderByTimeReceived, Window(start, stop))
      ensures replay.context.clock == stop
    {
      replay.ReplayStep(start, stop);
    }
  }
}
