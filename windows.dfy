/**
 * Window planning of `Replay.run` (Replay.java:63-78, 190).  The replay
 * interval is cut into windows of one `TimeStep` each, starting at the
 * interval start, for as long as the window start is not after the
 * interval end.  The loop does not clamp: the last window always ends after
 * the interval end, and when the interval length is a multiple of the step
 * an extra window starts exactly at the end.  An interval not longer than
 * one step is replayed as a single window equal to the interval.
 */
module Windows {

  /** `Duration.standardDays(28)` in milliseconds. */
  const TimeStep: int := 28 * 24 * 60 * 60 * 1000

  /** One replay step over the closed interval [start, stop]. */
  datatype Window = Window(start: int, stop: int)

  /** The windows the loop `for (now = from; !now.isAfter(end); now = now + step)` visits. */
  function PlanWindows(from: int, end: int, step: int): (ws: seq<Window>)
    requires step > 0
    ensures from <= end <==> ws != []
    decreases if from <= end then end - from + 1 else 0
  {
    if from > end then [] else [Window(from, from + step)] + PlanWindows(from + step, end, step)
  }

  /** The windows `run` replays: many when the interval is longer than one step, else the interval itself. */
  function RunWindows(start: int, end: int): (ws: seq<Window>)
    requires start <= end
    ensures ws != []
  {
    if end - start > TimeStep then PlanWindows(start, end, TimeStep) else [Window(start, end)]
  }

  /** Consecutive windows are contiguous and none is reversed. */
  ghost predicate Chain(ws: seq<Window>)
  {
    && (forall i :: 0 <= i < |ws| ==> ws[i].start <= ws[i].stop)
    && (forall i :: 0 <= i < |ws| - 1 ==> ws[i].stop == ws[i + 1].start)
  }

  /** Some window of ws contains instant t (windows are closed on both ends). */
  ghost predicate Covered(ws: seq<Window>, t: int)
  {
    exists i :: 0 <= i < |ws| && ws[i].start <= t <= ws[i].stop
  }

  /** Window i of the plan is [from + i*step, from + (i+1)*step]; there are (end-from)/step + 1 of them. */
  lemma {:induction false} PlanWindowsShape(from: int, end: int, step: int)
    requires step > 0 && from <= end
    ensures |PlanWindows(from, end, step)| == (end - from) / step + 1
    ensures forall i :: 0 <= i < |PlanWindows(from, end, step)| ==>
              PlanWindows(from, end, step)[i] == Window(from + i * step, from + (i + 1) * step)
    decreases end - from
  {
    var ws := PlanWindows(from, end, step);
    if from + step > end {
      assert |ws| == 1;
      DivOfSmaller(end - from, step);
    } else {
      PlanWindowsShape(from + step, end, step);
      var rest := PlanWindows(from + step, end, step);
      assert ws == [Window(from, from + step)] + rest;
      DivStep(end - from, step);
      forall i | 0 < i < |ws| ensures ws[i] == Window(from + i * step, from + (i + 1) * step) {
        assert ws[i] == rest[i - 1];
        assert from + step + (i - 1) * step == from + i * step;
        assert from + step + i * step == from + (i + 1) * step;
      }
    }
  }

  lemma DivOfSmaller(a: int, b: int)
    requires 0 <= a < b
    ensures a / b == 0
  {
  }

  lemma DivStep(a: int, b: int)
    requires 0 < b <= a
    ensures a / b == (a - b) / b + 1
  {
    var q, r := (a - b) / b, (a - b) % b;
    assert a - b == q * b + r;
    assert a == (q + 1) * b + r;
    DivUnique(a, b, q + 1, r);
  }

  /** Quotient and remainder are determined by a == q*b + r with 0 <= r < b. */
  lemma DivUnique(a: int, b: int, q: int, r: int)
    requires b > 0 && 0 <= r < b && a == q * b + r
    ensures a / b == q
  {
    var q', r' := a / b, a % b;
    assert a == q' * b + r';
    assert (q - q') * b == r' - r;
    if q > q' {
      MulMonotone(1, q - q', b);
    } else if q < q' {
      MulMonotone(1, q' - q, b);
    }
  }

  /** Subtracting the divisor once leaves the remainder unchanged. */
  lemma ModStep(a: int, b: int)
    requires 0 < b <= a
    ensures a % b == (a - b) % b
  {
    var q, r := (a - b) / b, (a - b) % b;
    assert a - b == q * b + r;
    assert a == (q + 1) * b + r;
    DivUnique(a, b, q + 1, r);
  }

  /**
   * The planned windows form a contiguous chain from `from`; every window
   * starts no later than `end`, and the last one ends after `end`.
   */
  lemma {:induction false} PlanWindowsChain(from: int, end: int, step: int)
    requires step > 0 && from <= end
    ensures var ws := PlanWindows(from, end, step);
      && Chain(ws)
      && ws[0].start == from
      && (forall i :: 0 <= i < |ws| ==> ws[i].start <= end)
      && end < ws[|ws| - 1].stop
    decreases end - from
  {
    var ws := PlanWindows(from, end, step);
    var rest := PlanWindows(from + step, end, step);
    assert ws == [Window(from, from + step)] + rest;
    if from + step <= end {
      PlanWindowsChain(from + step, end, step);
      assert forall i :: 0 < i < |ws| ==> ws[i] == rest[i - 1];
      assert ws[|ws| - 1] == rest[|rest| - 1];
    }
  }

  /** The last planned window starts exactly at `end` when the length is a multiple of the step. */
  lemma {:induction false} PlanWindowsLast(from: int, end: int, step: int)
    requires step > 0 && from <= end
    ensures var ws := PlanWindows(from, end, step);
      ws[|ws| - 1].start == end <==> (end - from) % step == 0
    decreases end - from
  {
    var ws := PlanWindows(from, end, step);
    var rest := PlanWindows(from + step, end, step);
    assert ws == [Window(from, from + step)] + rest;
    if from + step <= end {
      PlanWindowsLast(from + step, end, step);
      ModStep(end - from, step);
      assert ws[|ws| - 1] == rest[|rest| - 1];
    } else {
      assert (end - from) % step == end - from;
    }
  }

  /**
   * The planned windows form a contiguous chain from `from`; every window
   * starts no later than `end`; the last one ends after `end`; and the last
   * one starts exactly at `end` when the length is a multiple of the step.
   */
  lemma PlanWindowsBounds(from: int, end: int, step: int)
    requires step > 0 && from <= end
    ensures var ws := PlanWindows(from, end, step);
      && Chain(ws)
      && ws[0].start == from
      && (forall i :: 0 <= i < |ws| ==> ws[i].start <= end)
      && end < ws[|ws| - 1].stop
      && (ws[|ws| - 1].start == end <==> (end - from) % step == 0)
  {
    PlanWindowsChain(from, end, step);
    PlanWindowsLast(from, end, step);
  }

  lemma MulMonotone(i: int, n: int, step: int)
    requires i <= n && step > 0
    ensures i * step <= n * step
  {
    assert n * step - i * step == (n - i) * step;
  }

  /** Every instant of [from, end] lies in some planned window. */
  lemma PlanWindowsCover(from: int, end: int, step: int, t: int)
    requires step > 0 && from <= t <= end
    ensures Covered(PlanWindows(from, end, step), t)
  {
    var ws := PlanWindows(from, end, step);
    PlanWindowsShape(from, end, step);
    var i := (t - from) / step;
    assert t - from == i * step + (t - from) % step;
    DivMonotone(t - from, end - from, step);
    assert ws[i].start <= t <= ws[i].stop;
  }

  lemma DivMonotone(a: int, b: int, step: int)
    requires 0 <= a <= b && step > 0
    ensures a / step <= b / step
  {
    var qa, qb := a / step, b / step;
    assert a == qa * step + a % step;
    assert b == qb * step + b % step;
    if qa > qb {
      MulMonotone(qb + 1, qa, step);
      assert false;
    }
  }

  /** Windows of a chain start and end in order. */
  lemma {:induction false} ChainOrdered(ws: seq<Window>, i: nat, j: nat)
    requires Chain(ws) && i <= j < |ws|
    ensures ws[i].start <= ws[j].start && ws[i].stop <= ws[j].stop
    ensures i < j ==> ws[i].stop <= ws[j].start
    decreases j - i
  {
    if i < j {
      ChainOrdered(ws, i + 1, j);
    }
  }

  /** The windows after the first of a chain form a chain. */
  lemma ChainTail(ws: seq<Window>)
    requires Chain(ws) && ws != []
    ensures Chain(ws[1..])
  {
    var rest := ws[1..];
    forall i | 0 <= i < |rest| - 1 ensures rest[i].stop == rest[i + 1].start {
      assert rest[i] == ws[i + 1] && rest[i + 1] == ws[i + 2];
    }
  }

  /** The number of windows of ws that contain instant t. */
  function CountIn(ws: seq<Window>, t: int): nat
  {
    if ws == [] then 0 else (if ws[0].start <= t <= ws[0].stop then 1 else 0) + CountIn(ws[1..], t)
  }

  /** No window of a chain contains an instant before the chain's start. */
  lemma {:induction false} CountInBelow(ws: seq<Window>, t: int)
    requires Chain(ws) && ws != [] && t < ws[0].start
    ensures CountIn(ws, t) == 0
  {
    if |ws| > 1 {
      ChainTail(ws);
      CountInBelow(ws[1..], t);
    }
  }

  /**
   * An instant of a chain's span that is not the end of an inner window
   * lies in exactly one window.
   */
  lemma {:induction false} CountInOnce(ws: seq<Window>, t: int)
    requires Chain(ws) && ws != []
    requires ws[0].start <= t <= ws[|ws| - 1].stop
    requires forall i :: 0 <= i < |ws| - 1 ==> ws[i].stop != t
    ensures CountIn(ws, t) == 1
  {
    if |ws| > 1 {
      var rest := ws[1..];
      ChainTail(ws);
      if t <= ws[0].stop {
        CountInBelow(rest, t);
      } else {
        assert rest[|rest| - 1] == ws[|ws| - 1];
        assert forall i :: 0 <= i < |rest| - 1 ==> rest[i].stop == ws[i + 1].stop;
        CountInOnce(rest, t);
      }
    }
  }

  /** Every window of ws is longer than an instant. */
  ghost predicate Proper(ws: seq<Window>)
  {
    forall i :: 0 <= i < |ws| ==> ws[i].start < ws[i].stop
  }

  /** Every planned window is one step long, so longer than an instant. */
  lemma {:induction false} PlanWindowsProper(from: int, end: int, step: int)
    requires step > 0
    ensures Proper(PlanWindows(from, end, step))
    decreases if from <= end then end - from + 1 else 0
  {
    if from <= end {
      var rest := PlanWindows(from + step, end, step);
      PlanWindowsProper(from + step, end, step);
      assert PlanWindows(from, end, step) == [Window(from, from + step)] + rest;
    }
  }

  /** The windows `run` replays are proper unless the interval is a single instant. */
  lemma RunWindowsProper(start: int, end: int)
    requires start <= end
    ensures start < end || |RunWindows(start, end)| == 1
    ensures start < end ==> Proper(RunWindows(start, end))
  {
    if end - start > TimeStep {
      PlanWindowsProper(start, end, TimeStep);
    }
  }

  /** The end of an inner window of a chain of proper windows lies in exactly two windows. */
  lemma {:induction false} CountInBoundary(ws: seq<Window>, i: nat)
    requires Chain(ws) && Proper(ws) && i + 1 < |ws|
    ensures CountIn(ws, ws[i].stop) == 2
  {
    var t, rest := ws[i].stop, ws[1..];
    ChainTail(ws);
    if i == 0 {
      assert rest[0] == ws[1];
      if |rest| > 1 {
        ChainTail(rest);
        assert rest[1..][0] == ws[2];
        CountInBelow(rest[1..], t);
      }
    } else {
      ChainOrdered(ws, 1, i);
      assert rest[i - 1] == ws[i];
      CountInBoundary(rest, i - 1);
    }
  }

  /** A chain of windows covers every instant from its first start to its last stop. */
  lemma {:induction false} ChainCovers(ws: seq<Window>, t: int)
    requires Chain(ws) && ws != []
    requires ws[0].start <= t <= ws[|ws| - 1].stop
    ensures Covered(ws, t)
  {
    if t <= ws[0].stop {
      assert ws[0].start <= t <= ws[0].stop;
    } else {
      var rest := ws[1..];
      ChainTail(ws);
      assert rest[|rest| - 1] == ws[|ws| - 1];
      ChainCovers(rest, t);
      var i :| 0 <= i < |rest| && rest[i].start <= t <= rest[i].stop;
      assert ws[i + 1] == rest[i];
    }
  }

  /** The windows `run` replays form a contiguous chain that starts at the interval start. */
  lemma RunWindowsChain(start: int, end: int)
    requires start <= end
    ensures Chain(RunWindows(start, end))
    ensures RunWindows(start, end)[0].start == start
  {
    if end - start > TimeStep {
      PlanWindowsBounds(start, end, TimeStep);
    }
  }

  /**
   * The windows `run` replays form a contiguous chain that starts at the
   * interval start and covers every instant of the interval.
   */
  lemma RunWindowsCover(start: int, end: int)
    requires start <= end
    ensures Chain(RunWindows(start, end))
    ensures RunWindows(start, end)[0].start == start
    ensures forall t :: start <= t <= end ==> Covered(RunWindows(start, end), t)
  {
    if end - start > TimeStep {
      PlanWindowsBounds(start, end, TimeStep);
      forall t | start <= t <= end ensures Covered(RunWindows(start, end), t) {
        PlanWindowsCover(start, end, TimeStep, t);
      }
    } else {
      forall t | start <= t <= end ensures Covered(RunWindows(start, end), t) {
        assert RunWindows(start, end)[0] == Window(start, end);
      }
    }
  }
}
