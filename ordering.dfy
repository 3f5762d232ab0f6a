/**
 * Stable sorting of events by their effective timestamp, as
 * `Collections.sort` does with the comparator `queryEvents` picks
 * (Replay.java:122).  A stable sort is characterised by two facts: the
 * result is sorted, and for every timestamp the events carrying it keep
 * their relative order (`SameKeyOrder`).  `SortedUnique` shows that these
 * two facts determine the result, so the functional `StableSort` and the
 * in-place `SortInPlace` compute the same sequence.
 */
module Ordering {
  import opened Events

  /** Non-decreasing by effective timestamp. */
  ghost predicate Sorted(recv: bool, s: seq<RemoteEvent>)
  {
    forall i, j :: 0 <= i <= j < |s| ==> EffectiveTime(recv, s[i]) <= EffectiveTime(recv, s[j])
  }

  /** The event x when its effective timestamp is `k`, else nothing. */
  function KeyHead(recv: bool, k: int, x: RemoteEvent): seq<RemoteEvent>
  {
    if EffectiveTime(recv, x) == k then [x] else []
  }

  /** The events of `s` whose effective timestamp is `k`, in their order in `s`. */
  function WithKey(recv: bool, k: int, s: seq<RemoteEvent>): seq<RemoteEvent>
  {
    if s == [] then [] else KeyHead(recv, k, s[0]) + WithKey(recv, k, s[1..])
  }

  /** `t` is a stable reordering of `s`: every timestamp class keeps its order. */
  ghost predicate SameKeyOrder(recv: bool, s: seq<RemoteEvent>, t: seq<RemoteEvent>)
  {
    forall k :: WithKey(recv, k, s) == WithKey(recv, k, t)
  }

  /** The timestamp class of k holds exactly the events of s with timestamp k. */
  lemma {:induction false} WithKeyMember(recv: bool, k: int, s: seq<RemoteEvent>, e: RemoteEvent)
    ensures e in WithKey(recv, k, s) <==> e in s && EffectiveTime(recv, e) == k
  {
    if s != [] {
      WithKeyMember(recv, k, s[1..], e);
      assert s == [s[0]] + s[1..];
    }
  }

  lemma {:induction false} WithKeyAppend(recv: bool, k: int, s: seq<RemoteEvent>, t: seq<RemoteEvent>)
    ensures WithKey(recv, k, s + t) == WithKey(recv, k, s) + WithKey(recv, k, t)
  {
    if s == [] {
      assert s + t == t;
    } else {
      var st := s + t;
      assert st[0] == s[0];
      assert st[1..] == s[1..] + t;
      WithKeyAppend(recv, k, s[1..], t);
      var head, rest, tail := KeyHead(recv, k, s[0]), WithKey(recv, k, s[1..]), WithKey(recv, k, t);
      assert WithKey(recv, k, st) == head + (rest + tail);
      assert head + (rest + tail) == (head + rest) + tail;
    }
  }

  /** Appending one event extends its own timestamp class and no other. */
  lemma WithKeySnoc(recv: bool, k: int, s: seq<RemoteEvent>, x: RemoteEvent)
    ensures WithKey(recv, k, s + [x]) == WithKey(recv, k, s) + KeyHead(recv, k, x)
  {
    WithKeyAppend(recv, k, s, [x]);
    assert [x][1..] == [];
  }

  /** The first event of s is in its timestamp class, so a sequence with the same classes is not empty. */
  lemma FirstClassNonEmpty(recv: bool, s: seq<RemoteEvent>, t: seq<RemoteEvent>)
    requires s != []
    ensures WithKey(recv, EffectiveTime(recv, s[0]), s) != []
    ensures t == [] ==> WithKey(recv, EffectiveTime(recv, s[0]), t) == []
  {
  }

  /** In a sorted sequence no event has a timestamp above the last one's. */
  lemma NoClassAboveLast(recv: bool, s: seq<RemoteEvent>, k: int)
    requires Sorted(recv, s) && s != []
    requires EffectiveTime(recv, s[|s| - 1]) < k
    ensures WithKey(recv, k, s) == []
  {
    if WithKey(recv, k, s) != [] {
      var e := WithKey(recv, k, s)[0];
      WithKeyMember(recv, k, s, e);
      assert false;
    }
  }

  /** `Insert(recv, x, s)` places x after every element of s whose timestamp is not later than x's. */
  function Insert(recv: bool, x: RemoteEvent, s: seq<RemoteEvent>): (r: seq<RemoteEvent>)
    ensures |r| == |s| + 1
    ensures forall e :: e in r <==> e == x || e in s
  {
    if s == [] then [x]
    else if EffectiveTime(recv, x) < EffectiveTime(recv, s[0]) then [x] + s
    else [s[0]] + Insert(recv, x, s[1..])
  }

  /** Inserting adds exactly one occurrence of x and keeps every other occurrence. */
  lemma {:induction false} InsertCounts(recv: bool, x: RemoteEvent, s: seq<RemoteEvent>)
    ensures multiset(Insert(recv, x, s)) == multiset(s) + multiset{x}
  {
    if s != [] && EffectiveTime(recv, x) >= EffectiveTime(recv, s[0]) {
      InsertCounts(recv, x, s[1..]);
      assert s == [s[0]] + s[1..];
    }
  }

  /** The stable sort of s: insertion of each element, left to right. */
  function StableSort(recv: bool, s: seq<RemoteEvent>): (r: seq<RemoteEvent>)
    ensures |r| == |s|
  {
    if s == [] then [] else Insert(recv, s[|s| - 1], StableSort(recv, s[..|s| - 1]))
  }

  lemma {:induction false} InsertSorted(recv: bool, x: RemoteEvent, s: seq<RemoteEvent>)
    requires Sorted(recv, s)
    ensures Sorted(recv, Insert(recv, x, s))
  {
    if s != [] && EffectiveTime(recv, x) >= EffectiveTime(recv, s[0]) {
      InsertSorted(recv, x, s[1..]);
      var r, t := Insert(recv, x, s), Insert(recv, x, s[1..]);
      assert r == [s[0]] + t;
      forall j | 0 < j < |r| ensures EffectiveTime(recv, r[0]) <= EffectiveTime(recv, r[j]) {
        assert r[j] == t[j - 1];
        assert r[j] in t;
      }
    }
  }

  /** In a sorted sequence no event has a timestamp below the first one's. */
  lemma NoClassBelowFirst(recv: bool, s: seq<RemoteEvent>, k: int)
    requires Sorted(recv, s) && s != []
    requires k < EffectiveTime(recv, s[0])
    ensures WithKey(recv, k, s) == []
  {
    if WithKey(recv, k, s) != [] {
      var e := WithKey(recv, k, s)[0];
      WithKeyMember(recv, k, s, e);
      assert false;
    }
  }

  lemma SortedTail(recv: bool, s: seq<RemoteEvent>)
    requires Sorted(recv, s) && s != []
    ensures Sorted(recv, s[1..])
  {
    forall i, j | 0 <= i <= j < |s| - 1
      ensures EffectiveTime(recv, s[1..][i]) <= EffectiveTime(recv, s[1..][j])
    {
      assert s[1..][i] == s[i + 1] && s[1..][j] == s[j + 1];
    }
  }

  /** Inserting x adds it at the end of its own timestamp class and changes no other class. */
  lemma {:induction false} InsertClasses(recv: bool, x: RemoteEvent, s: seq<RemoteEvent>, k: int)
    requires Sorted(recv, s)
    ensures WithKey(recv, k, Insert(recv, x, s))
         == WithKey(recv, k, s) + KeyHead(recv, k, x)
  {
    var r := Insert(recv, x, s);
    if s == [] {
      assert r == [x];
      assert r[1..] == [];
    } else if EffectiveTime(recv, x) < EffectiveTime(recv, s[0]) {
      assert r == [x] + s;
      assert r[1..] == s;
      if EffectiveTime(recv, x) == k {
        NoClassBelowFirst(recv, s, k);
      }
    } else {
      var rest := Insert(recv, x, s[1..]);
      assert r == [s[0]] + rest;
      assert r[0] == s[0] && r[1..] == rest;
      SortedTail(recv, s);
      InsertClasses(recv, x, s[1..], k);
      var head := KeyHead(recv, k, s[0]);
      assert WithKey(recv, k, r) == head + (WithKey(recv, k, s[1..]) + KeyHead(recv, k, x));
      assert head + (WithKey(recv, k, s[1..]) + KeyHead(recv, k, x))
          == (head + WithKey(recv, k, s[1..])) + KeyHead(recv, k, x);
    }
  }

  /** StableSort returns a sorted, stable reordering of its input. */
  lemma {:induction false} StableSortCorrect(recv: bool, s: seq<RemoteEvent>)
    ensures Sorted(recv, StableSort(recv, s))
    ensures SameKeyOrder(recv, StableSort(recv, s), s)
  {
    if s != [] {
      var p, x := s[..|s| - 1], s[|s| - 1];
      assert s == p + [x];
      StableSortCorrect(recv, p);
      InsertSorted(recv, x, StableSort(recv, p));
      forall k ensures WithKey(recv, k, StableSort(recv, s)) == WithKey(recv, k, s) {
        InsertClasses(recv, x, StableSort(recv, p), k);
        WithKeySnoc(recv, k, p, x);
      }
    }
  }

  /** Count of one event in its timestamp class equals its count in the whole sequence. */
  lemma {:induction false} CountInClass(recv: bool, e: RemoteEvent, s: seq<RemoteEvent>)
    ensures multiset(WithKey(recv, EffectiveTime(recv, e), s))[e] == multiset(s)[e]
  {
    if s != [] {
      var k := EffectiveTime(recv, e);
      CountInClass(recv, e, s[1..]);
      assert s == [s[0]] + s[1..];
      assert multiset(s) == multiset([s[0]]) + multiset(s[1..]);
      if EffectiveTime(recv, s[0]) == k {
        assert WithKey(recv, k, s) == [s[0]] + WithKey(recv, k, s[1..]);
      } else {
        assert WithKey(recv, k, s) == WithKey(recv, k, s[1..]) && s[0] != e;
      }
    }
  }

  /** A stable reordering is a permutation. */
  lemma SameKeyOrderIsPermutation(recv: bool, s: seq<RemoteEvent>, t: seq<RemoteEvent>)
    requires SameKeyOrder(recv, s, t)
    ensures multiset(s) == multiset(t)
  {
    forall e ensures multiset(s)[e] == multiset(t)[e] {
      CountInClass(recv, e, s);
      CountInClass(recv, e, t);
      assert WithKey(recv, EffectiveTime(recv, e), s) == WithKey(recv, EffectiveTime(recv, e), t);
    }
  }

  /**
   * Two sorted sequences whose timestamp classes agree are equal: sortedness
   * plus stability determine the result of a sort.
   */
  lemma {:induction false} SortedUnique(recv: bool, t: seq<RemoteEvent>, u: seq<RemoteEvent>)
    requires Sorted(recv, t) && Sorted(recv, u)
    requires SameKeyOrder(recv, t, u)
    ensures t == u
    decreases |t| + |u|
  {
    if t == [] || u == [] {
      if t != [] {
        FirstClassNonEmpty(recv, t, u);
        assert false;
      } else if u != [] {
        FirstClassNonEmpty(recv, u, t);
        assert false;
      }
    } else {
      var t', x := t[..|t| - 1], t[|t| - 1];
      var u', y := u[..|u| - 1], u[|u| - 1];
      assert t == t' + [x] && u == u' + [y];
      var kx, ky := EffectiveTime(recv, x), EffectiveTime(recv, y);
      WithKeySnoc(recv, kx, t', x);
      WithKeySnoc(recv, ky, u', y);
      if kx < ky {
        NoClassAboveLast(recv, t, ky);
        assert false;
      } else if ky < kx {
        NoClassAboveLast(recv, u, kx);
        assert false;
      }
      assert WithKey(recv, kx, t) == WithKey(recv, kx, u);
      SnocInjective(WithKey(recv, kx, t'), x, WithKey(recv, kx, u'), y);
      forall k ensures WithKey(recv, k, t') == WithKey(recv, k, u') {
        WithKeySnoc(recv, k, t', x);
        WithKeySnoc(recv, k, u', y);
        assert WithKey(recv, k, t) == WithKey(recv, k, u);
        if k == kx {
          SnocInjective(WithKey(recv, k, t'), x, WithKey(recv, k, u'), y);
        } else {
          assert WithKey(recv, k, t') + [] == WithKey(recv, k, t');
          assert WithKey(recv, k, u') + [] == WithKey(recv, k, u');
        }
      }
      SortedUnique(recv, t', u');
    }
  }

  lemma SnocInjective(a: seq<RemoteEvent>, x: RemoteEvent, b: seq<RemoteEvent>, y: RemoteEvent)
    requires a + [x] == b + [y]
    ensures a == b && x == y
  {
    assert a == (a + [x])[..|a|];
    assert b == (b + [y])[..|b|];
  }

  lemma PairClasses(recv: bool, k: int, a: RemoteEvent, b: RemoteEvent)
    requires EffectiveTime(recv, a) != EffectiveTime(recv, b)
    ensures WithKey(recv, k, [a, b]) == WithKey(recv, k, [b, a])
  {
    assert [a, b][1..] == [b] && [b, a][1..] == [a];
    assert [b][1..] == [] && [a][1..] == [];
  }

  /** Swapping two neighbours with different timestamps keeps every timestamp class. */
  lemma SwapKeepsKeyOrder(recv: bool, s: seq<RemoteEvent>, j: nat)
    requires 0 < j < |s|
    requires EffectiveTime(recv, s[j - 1]) != EffectiveTime(recv, s[j])
    ensures SameKeyOrder(recv, s[j - 1 := s[j]][j := s[j - 1]], s)
  {
    var t := s[j - 1 := s[j]][j := s[j - 1]];
    var pre, post := s[..j - 1], s[j + 1..];
    var ab, ba := [s[j - 1], s[j]], [s[j], s[j - 1]];
    assert s == (pre + ab) + post;
    assert t == (pre + ba) + post;
    forall k ensures WithKey(recv, k, t) == WithKey(recv, k, s) {
      WithKeyAppend(recv, k, pre + ab, post);
      WithKeyAppend(recv, k, pre, ab);
      WithKeyAppend(recv, k, pre + ba, post);
      WithKeyAppend(recv, k, pre, ba);
      PairClasses(recv, k, s[j - 1], s[j]);
    }
  }

  /** The first n elements of s are in non-decreasing timestamp order. */
  ghost predicate SortedPrefix(recv: bool, s: seq<RemoteEvent>, n: int)
  {
    forall p, q :: 0 <= p <= q < n && q < |s| ==> EffectiveTime(recv, s[p]) <= EffectiveTime(recv, s[q])
  }

  /**
   * The state of sinking element i: apart from position j, the prefix up to
   * i is sorted, and the element at j is strictly earlier than everything
   * it has passed.
   */
  ghost predicate Sinking(recv: bool, s: seq<RemoteEvent>, i: int, j: int)
  {
    && 0 <= j <= i < |s|
    && (forall p, q :: 0 <= p <= q <= i && p != j && q != j ==> EffectiveTime(recv, s[p]) <= EffectiveTime(recv, s[q]))
    && (forall q :: j < q <= i ==> EffectiveTime(recv, s[j]) < EffectiveTime(recv, s[q]))
  }

  lemma SinkingStart(recv: bool, s: seq<RemoteEvent>, i: nat)
    requires i < |s| && SortedPrefix(recv, s, i)
    ensures Sinking(recv, s, i, i)
  {
  }

  /** Swapping the sinking element with a strictly later left neighbour moves it one place left. */
  lemma SinkingStep(recv: bool, s: seq<RemoteEvent>, i: nat, j: nat)
    requires Sinking(recv, s, i, j) && j > 0
    requires EffectiveTime(recv, s[j]) < EffectiveTime(recv, s[j - 1])
    ensures Sinking(recv, s[j - 1 := s[j]][j := s[j - 1]], i, j - 1)
  {
    var t := s[j - 1 := s[j]][j := s[j - 1]];
    forall p, q | 0 <= p <= q <= i && p != j - 1 && q != j - 1
      ensures EffectiveTime(recv, t[p]) <= EffectiveTime(recv, t[q])
    {
      var p' := if p == j then j - 1 else p;
      var q' := if q == j then j - 1 else q;
      assert t[p] == s[p'] && t[q] == s[q'];
      if p == j && q != j {
        assert EffectiveTime(recv, s[j - 1]) <= EffectiveTime(recv, s[q]) || q == j - 1;
      }
    }
  }

  /** Once the sinking element is not earlier than its left neighbour, the prefix up to i is sorted. */
  lemma SinkingDone(recv: bool, s: seq<RemoteEvent>, i: nat, j: nat)
    requires Sinking(recv, s, i, j)
    requires j == 0 || EffectiveTime(recv, s[j - 1]) <= EffectiveTime(recv, s[j])
    ensures SortedPrefix(recv, s, i + 1)
  {
    forall p, q | 0 <= p <= q < i + 1 && q < |s|
      ensures EffectiveTime(recv, s[p]) <= EffectiveTime(recv, s[q])
    {
      if p == j && q != j {
        if j > 0 {
          assert EffectiveTime(recv, s[j - 1]) <= EffectiveTime(recv, s[q]);
        }
      } else if q == j && p != j {
        assert EffectiveTime(recv, s[p]) <= EffectiveTime(recv, s[j - 1]);
      }
    }
  }

  /**
   * Moves `a[i]` left into the sorted prefix `a[..i]`, past the elements with
   * a strictly later timestamp only.
   */
  method SinkLeft(recv: bool, a: array<RemoteEvent>, i: nat)
    requires i < a.Length
    requires SortedPrefix(recv, a[..], i)
    modifies a
    ensures SortedPrefix(recv, a[..], i + 1)
    ensures SameKeyOrder(recv, a[..], old(a[..]))
    ensures a[..i + 1] == Insert(recv, old(a[i]), old(a[..i]))
    ensures a[i + 1..] == old(a[i + 1..])
  {
    var j := i;
    SinkingStart(recv, a[..], i);
    while j > 0 && EffectiveTime(recv, a[j]) < EffectiveTime(recv, a[j - 1])
      invariant Sinking(recv, a[..], i, j)
      invariant SameKeyOrder(recv, a[..], old(a[..]))
      invariant a[i + 1..] == old(a[i + 1..])
    {
      ghost var before := a[..];
      SwapKeepsKeyOrder(recv, before, j);
      SinkingStep(recv, before, i, j);
      a[j - 1], a[j] := a[j], a[j - 1];
      assert a[..] == before[j - 1 := before[j]][j := before[j - 1]];
      j := j - 1;
    }
    SinkingDone(recv, a[..], i, j);
    SinkLeftInserts(recv, old(a[..]), a[..], i);
  }

  /**
   * A sorted prefix of length i + 1 that keeps every class of the old one,
   * over an unchanged suffix, is the insertion of the old `s[i]` into the old
   * prefix: sinking is one step of the insertion sort.
   */
  lemma SinkLeftInserts(recv: bool, s: seq<RemoteEvent>, t: seq<RemoteEvent>, i: nat)
    requires i < |s| == |t|
    requires SortedPrefix(recv, s, i) && SortedPrefix(recv, t, i + 1)
    requires SameKeyOrder(recv, t, s)
    requires t[i + 1..] == s[i + 1..]
    ensures t[..i + 1] == Insert(recv, s[i], s[..i])
  {
    var ins := Insert(recv, s[i], s[..i]);
    InsertSorted(recv, s[i], s[..i]);
    forall k
      ensures WithKey(recv, k, t[..i + 1]) == WithKey(recv, k, ins)
    {
      assert t == t[..i + 1] + t[i + 1..];
      assert s == s[..i + 1] + s[i + 1..];
      assert s[..i + 1] == s[..i] + [s[i]];
      WithKeyAppend(recv, k, t[..i + 1], t[i + 1..]);
      WithKeyAppend(recv, k, s[..i + 1], s[i + 1..]);
      WithKeySnoc(recv, k, s[..i], s[i]);
      InsertClasses(recv, s[i], s[..i], k);
      var front, back := WithKey(recv, k, t[..i + 1]), WithKey(recv, k, s[..i + 1]);
      var rest := WithKey(recv, k, t[i + 1..]);
      assert front + rest == back + rest;
      assert front == (front + rest)[..|front|] == (back + rest)[..|back|] == back;
    }
    SortedUnique(recv, t[..i + 1], ins);
  }

  /**
   * Sorts `a` in place by effective timestamp, stably.  The result is the
   * one stable sort of the old contents.
   */
  method SortInPlace(recv: bool, a: array<RemoteEvent>)
    modifies a
    ensures Sorted(recv, a[..])
    ensures SameKeyOrder(recv, a[..], old(a[..]))
    ensures a[..] == StableSort(recv, old(a[..]))
  {
    var i := 0;
    while i < a.Length
      invariant i <= a.Length
      invariant SortedPrefix(recv, a[..], i)
      invariant SameKeyOrder(recv, a[..], old(a[..]))
    {
      SinkLeft(recv, a, i);
      i := i + 1;
    }
    StableSortCorrect(recv, old(a[..]));
    SortedUnique(recv, a[..], StableSort(recv, old(a[..])));
  }
}
